/**
  The video-id extractor of the bot: the regular expression
  `(?:v=|/)([0-9A-Za-z_-]{11}).*` applied with leftmost-match search,
  written out as a scan over the message. At each position in turn the scan
  looks for a `v=` or `/` marker followed by eleven id characters, and the
  first position that has one gives the id. The trailing `.*` matches any
  rest, so it constrains nothing.
 */
module YouTube {
  import opened Wrappers
  import opened Text

  /** A video id is exactly this many characters long. */
  const IdLength: nat := 11

  /** The character class `[0-9A-Za-z_-]`. */
  predicate IsIdChar(c: char) {
    ('0' <= c <= '9') || ('A' <= c <= 'Z') || ('a' <= c <= 'z') || c == '_' || c == '-'
  }

  /** A well-formed video id: eleven characters of the id class. */
  predicate IsVideoId(s: string) {
    |s| == IdLength && forall i :: 0 <= i < |s| ==> IsIdChar(s[i])
  }

  /** Length of the marker at position `i`: 2 for `v=`, 1 for `/`, 0 for none.
      The two alternatives of `(?:v=|/)` cannot both start at one position. */
  function MarkerLength(s: string, i: nat): nat {
    if i + 2 <= |s| && s[i] == 'v' && s[i + 1] == '=' then 2
    else if i < |s| && s[i] == '/' then 1
    else 0
  }

  /** The pattern matches when the search is started at position `i`. */
  predicate MatchesAt(s: string, i: nat) {
    var m := MarkerLength(s, i);
    m > 0 && i + m + IdLength <= |s| && IsVideoId(s[i + m..i + m + IdLength])
  }

  /** The captured group of a match that starts at position `i`. */
  function IdAt(s: string, i: nat): (id: string)
    requires MatchesAt(s, i)
    ensures IsVideoId(id)
  {
    var m := MarkerLength(s, i);
    s[i + m..i + m + IdLength]
  }

  /** The leftmost position at or after `i` where the pattern matches. */
  function FirstMatchFrom(s: string, i: nat): (r: Option<nat>)
    requires i <= |s|
    ensures r.Some? ==> i <= r.value < |s| && MatchesAt(s, r.value)
    ensures r.Some? ==> forall j :: i <= j < r.value ==> !MatchesAt(s, j)
    ensures r.None? ==> forall j :: i <= j <= |s| ==> !MatchesAt(s, j)
    decreases |s| - i
  {
    if i == |s| then None
    else if MatchesAt(s, i) then Some(i)
    else FirstMatchFrom(s, i + 1)
  }

  /** `extract_video_id(url)`: the group of the leftmost match, or `None`. */
  function ExtractVideoId(url: string): (r: Option<string>)
    ensures r.Some? ==> IsVideoId(r.value)
    ensures r.None? <==> forall j :: 0 <= j <= |url| ==> !MatchesAt(url, j)
  {
    match FirstMatchFrom(url, 0)
    case Some(k) => Some(IdAt(url, k))
    case None => None
  }

  /** The characterisation of the leftmost match determines the result: if the
      pattern matches at `k` and at no earlier position, the id is the one at `k`. */
  lemma ExtractLeftmost(url: string, k: nat)
    requires MatchesAt(url, k)
    requires forall j :: 0 <= j < k ==> !MatchesAt(url, j)
    ensures ExtractVideoId(url) == Some(IdAt(url, k))
  {
  }

  /** The id is written right after a `v=` or `/` marker. */
  predicate FollowsMarker(s: string, p: nat, id: string) {
    && p + |id| <= |s| && s[p..p + |id|] == id
    && ((2 <= p && s[p - 2..p] == "v=") || (1 <= p && s[p - 1] == '/'))
  }

  /** A returned id is found in the message immediately after a marker. */
  lemma ExtractFollowsMarker(url: string, id: string)
    requires ExtractVideoId(url) == Some(id)
    ensures exists p :: FollowsMarker(url, p, id)
  {
    var k := FirstMatchFrom(url, 0).value;
    var m := MarkerLength(url, k);
    assert FollowsMarker(url, k + m, id) by {
      if m == 2 { assert url[k..k + 2] == "v="; }
    }
  }

  /** Extending the message keeps a match that lies wholly inside it. */
  lemma MatchesAtAppend(s: string, t: string, j: nat)
    requires MatchesAt(s, j)
    ensures MatchesAt(s + t, j) && IdAt(s + t, j) == IdAt(s, j)
  {
    var m := MarkerLength(s, j);
    assert MarkerLength(s + t, j) == m;
    assert (s + t)[j + m..j + m + IdLength] == s[j + m..j + m + IdLength];
  }

  /** Extending the message creates no match at a position whose marker and
      eleven following characters all lie inside it. */
  lemma NoMatchAtAppend(s: string, t: string, j: nat)
    requires j + 2 + IdLength <= |s|
    requires !MatchesAt(s, j)
    ensures !MatchesAt(s + t, j)
  {
    var m := MarkerLength(s, j);
    assert MarkerLength(s + t, j) == m;
    assert (s + t)[j + m..j + m + IdLength] == s[j + m..j + m + IdLength];
  }

  /** Appending text never changes a successful extraction: the match found in
      `s` stays the leftmost one in `s + t`. */
  lemma ExtractAppend(s: string, t: string, id: string)
    requires ExtractVideoId(s) == Some(id)
    ensures ExtractVideoId(s + t) == Some(id)
  {
    var k := FirstMatchFrom(s, 0).value;
    MatchesAtAppend(s, t, k);
    forall j | 0 <= j < k ensures !MatchesAt(s + t, j) {
      NoMatchAtAppend(s, t, j);
    }
    ExtractLeftmost(s + t, k);
  }

  /** `v=` followed by a well-formed id yields that id, whatever follows. */
  lemma ExtractAfterV(id: string, t: string)
    requires IsVideoId(id)
    ensures ExtractVideoId("v=" + id + t) == Some(id)
  {
    var s := "v=" + id;
    assert MatchesAt(s, 0) && IdAt(s, 0) == id by {
      assert s[2..2 + IdLength] == id;
    }
    ExtractLeftmost(s, 0);
    ExtractAppend(s, t, id);
  }

  /** A message with no `/` and no `v=` has no video id. */
  lemma ExtractNoMarker(url: string)
    requires forall i :: 0 <= i < |url| ==> url[i] != '/'
    requires !Contains(url, "v=")
    ensures ExtractVideoId(url) == None
  {
    forall j | 0 <= j <= |url| ensures !MatchesAt(url, j) {
      assert !("v=" <= url[j..]);
    }
  }

  /** Eleven id characters, position by position. */
  lemma SampleIdsWellFormed()
    ensures IsVideoId("dQw4w9WgXcQ") && IsVideoId("attribution")
  {
  }

  /** The short-link form gives its path segment. */
  lemma ExtractShortLink()
    ensures ExtractVideoId("https://youtu.be/" + "dQw4w9WgXcQ") == Some("dQw4w9WgXcQ")
  {
    var id := "dQw4w9WgXcQ";
    var s := "https://youtu.be/" + id;
    forall j | 0 <= j < 16 ensures !MatchesAt(s, j) {
      if j == 6 {
        assert s[7] == '/';
      } else if j == 7 {
        assert s[13] == '.';
      } else {
        assert s[j] != '/' && s[j] != 'v';
      }
    }
    SampleIdsWellFormed();
    assert s[17..17 + IdLength] == id;
    ExtractLeftmost(s, 16);
  }

  /** The watch-page form gives the `v` parameter. */
  lemma ExtractWatchLink()
    ensures ExtractVideoId("https://www.youtube.com/" + "watch?v=" + "dQw4w9WgXcQ") == Some("dQw4w9WgXcQ")
  {
    var id := "dQw4w9WgXcQ";
    var s := "https://www.youtube.com/" + "watch?v=" + id;
    forall j | 0 <= j < 30 ensures !MatchesAt(s, j) {
      if j == 6 {
        assert s[7] == '/';
      } else if j == 7 {
        assert s[11] == '.';
      } else if j == 23 {
        assert s[29] == '?';
      } else {
        assert s[j] != '/' && s[j] != 'v';
      }
    }
    SampleIdsWellFormed();
    assert s[32..32 + IdLength] == id;
    ExtractLeftmost(s, 30);
  }

  /** A message that contains `v=` and a well-formed id need not yield that id:
      an earlier `/` followed by eleven id characters wins the leftmost search. */
  lemma ExtractEarlierSlashWins()
    ensures Contains("https://www.youtube.com/" + "attribution" + "_link?v=" + "dQw4w9WgXcQ", "v=dQw4w9WgXcQ")
    ensures ExtractVideoId("https://www.youtube.com/" + "attribution" + "_link?v=" + "dQw4w9WgXcQ") == Some("attribution")
  {
    var s := "https://www.youtube.com/" + "attribution" + "_link?v=" + "dQw4w9WgXcQ";
    assert s[41..] == "v=dQw4w9WgXcQ";
    forall j | 0 <= j < 23 ensures !MatchesAt(s, j) {
      if j == 6 {
        assert s[7] == '/';
      } else if j == 7 {
        assert s[11] == '.';
      } else {
        assert s[j] != '/' && s[j] != 'v';
      }
    }
    SampleIdsWellFormed();
    assert s[24..24 + IdLength] == "attribution";
    ExtractLeftmost(s, 23);
  }
}
