/** `extract_steam_id`: the account identifier is the last path segment of a profile URL. */
module SteamId {
  import opened Wrappers
  import opened Text

  const ProfileMarker := "steamcommunity.com/profiles/"

  /**
   * The stripped last `/`-segment of `url` when `url` contains the profile
   * marker, and `None` otherwise. The identifier may come out empty (a URL
   * ending in `/`); the caller treats that like `None`.
   */
  function ExtractSteamId(url: string): (r: Option<string>)
    ensures r.Some? <==> Contains(url, ProfileMarker)
  {
    if Contains(url, ProfileMarker) then Some(Strip(LastPiece(url, '/'))) else None
  }

  /** A string contains every character of a string it contains. */
  lemma {:induction false} ContainedChar(s: string, t: string, c: char)
    requires Contains(s, t) && c in t
    ensures c in s
  {
    if !StartsWith(s, t) {
      ContainedChar(s[1..], t, c);
    } else {
      assert s[..|t|] == t;
    }
  }

  /** `a + t + b` contains `t`. */
  lemma {:induction false} ContainsInfix(a: string, t: string, b: string)
    ensures Contains(a + t + b, t)
  {
    if a == [] {
      assert (a + t + b)[..|t|] == t;
    } else {
      ContainsInfix(a[1..], t, b);
      assert (a + t + b)[1..] == a[1..] + t + b;
    }
  }

  /**
   * The identifier is the stripped tail of `url` after its last `/`: that tail
   * holds no `/`, and a `/` stands right before it.
   */
  lemma SteamIdIsLastSegment(url: string)
    requires Contains(url, ProfileMarker)
    ensures var tail := LastPiece(url, '/');
            && ExtractSteamId(url) == Some(Strip(tail))
            && '/' !in tail
            && |tail| < |url| && url[|url| - |tail|..] == tail && url[|url| - |tail| - 1] == '/'
  {
    assert ProfileMarker[|ProfileMarker| - 1] == '/';
    ContainedChar(url, ProfileMarker, '/');
    LastPieceIsSuffix(url, '/');
  }

  /** A profile URL `…steamcommunity.com/profiles/<id>` yields `<id>` stripped, for an `<id>` without `/`. */
  lemma ProfileUrlYieldsId(prefix: string, id: string)
    requires '/' !in id
    ensures ExtractSteamId(prefix + ProfileMarker + id) == Some(Strip(id))
  {
    var url := prefix + ProfileMarker + id;
    ContainsInfix(prefix, ProfileMarker, id);
    var head := prefix + ProfileMarker[..|ProfileMarker| - 1];
    assert url == head + ['/'] + id;
    LastPieceAfterSeparator(head, id, '/');
  }
}
