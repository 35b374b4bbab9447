/** The two base addresses of the front end. `API_BASE` is the configured
    API address with its trailing slashes and then one trailing "/api"
    (in any letter case) cut off, or the page origin followed by "/api"
    when nothing is configured; `SITE_URL` is the configured site address
    with its trailing slashes cut off, or the page origin. The environment
    variables and the origin are parameters; an unset variable is `None`. */
module Config {
  import opened Wrappers

  /** `s.replace(/\/+$/, "")`. */
  function StripTrailingSlashes(s: string): (r: string)
    ensures |r| <= |s| && r == s[..|r|]
    ensures forall i :: |r| <= i < |s| ==> s[i] == '/'
    ensures r == [] || r[|r| - 1] != '/'
  {
    if s != [] && s[|s| - 1] == '/' then StripTrailingSlashes(s[..|s| - 1]) else s
  }

  /** `c` matches the regular-expression character `p` under the `i` flag;
      for the letters of "api" that is the letter in either case. */
  predicate SameLetterIgnoringCase(c: char, p: char)
  {
    c == p || ('a' <= p <= 'z' && c as int == p as int - 32)
  }

  /** The last four characters spell "/api" in any letter case. */
  predicate EndsWithApi(s: string)
  {
    |s| >= 4 && s[|s| - 4] == '/' && SameLetterIgnoringCase(s[|s| - 3], 'a')
    && SameLetterIgnoringCase(s[|s| - 2], 'p') && SameLetterIgnoringCase(s[|s| - 1], 'i')
  }

  /** `s.replace(/\/api$/i, "")`: one trailing "/api" removed. */
  function StripApiSuffix(s: string): (r: string)
    ensures |r| <= |s| && r == s[..|r|]
    ensures EndsWithApi(s) ==> |r| == |s| - 4
    ensures !EndsWithApi(s) ==> r == s
  {
    if EndsWithApi(s) then s[..|s| - 4] else s
  }

  /** A configured variable is used when it is set and not empty. */
  predicate IsSet(raw: Option<string>)
  {
    raw.Some? && raw.value != ""
  }

  /** `API_BASE`. */
  function ApiBase(raw: Option<string>, origin: string): (base: string)
    ensures IsSet(raw) ==> |base| <= |raw.value| && base == raw.value[..|base|]
    ensures !IsSet(raw) ==> base == origin + "/api"
  {
    if IsSet(raw) then StripApiSuffix(StripTrailingSlashes(raw.value)) else origin + "/api"
  }

  /** `SITE_URL`. */
  function SiteUrl(raw: Option<string>, origin: string): (url: string)
    ensures IsSet(raw) ==> |url| <= |raw.value| && url == raw.value[..|url|]
    ensures !IsSet(raw) ==> url == origin
  {
    if IsSet(raw) then StripTrailingSlashes(raw.value) else origin
  }

  /** `n` slashes. */
  function Slashes(n: nat): (s: string)
    ensures |s| == n && forall i :: 0 <= i < n ==> s[i] == '/'
  {
    if n == 0 then "" else Slashes(n - 1) + "/"
  }

  /** Cutting the slashes off an address that does not end in one gives
      the address back, however many were added. */
  lemma {:induction false} StripSlashesRoundTrip(s: string, n: nat)
    requires s == [] || s[|s| - 1] != '/'
    ensures StripTrailingSlashes(s + Slashes(n)) == s
  {
    if n > 0 {
      assert (s + Slashes(n))[..|s + Slashes(n)| - 1] == s + Slashes(n - 1);
      StripSlashesRoundTrip(s, n - 1);
    } else {
      assert s + Slashes(0) == s;
    }
  }

  /** An address with no trailing slash and no "/api" ending is used as it
      is. */
  lemma {:induction false} PlainAddressUnchanged(raw: string, origin: string)
    requires raw != [] && raw[|raw| - 1] != '/' && !EndsWithApi(raw)
    ensures ApiBase(Some(raw), origin) == raw
    ensures SiteUrl(Some(raw), origin) == raw
  {
  }

  /** An address followed by "/api" in any letter case and any number of
      slashes loses exactly that ending. */
  lemma {:induction false} ApiSuffixRemoved(b: string, suffix: string, n: nat, origin: string)
    requires b != []
    requires |suffix| == 4 && EndsWithApi(suffix)
    ensures ApiBase(Some(b + suffix + Slashes(n)), origin) == b
  {
    StripSlashesRoundTrip(b + suffix, n);
    var t := b + suffix;
    assert t[|t| - 4..] == suffix;
    assert t[..|t| - 4] == b;
  }

  /** At most one "/api" goes: an address ending "/api/api" keeps one. */
  lemma {:induction false} OnlyOneApiRemoved(b: string, n: nat, origin: string)
    requires b != []
    ensures ApiBase(Some(b + "/api/api" + Slashes(n)), origin) == b + "/api"
  {
    assert b + "/api/api" == (b + "/api") + "/api";
    ApiSuffixRemoved(b + "/api", "/api", n, origin);
  }

  /** The site address keeps an "/api" ending; only slashes go. */
  lemma {:induction false} SiteKeepsApi(b: string, n: nat, origin: string)
    requires b != [] && b[|b| - 1] != '/'
    ensures SiteUrl(Some(b + Slashes(n)), origin) == b
  {
    StripSlashesRoundTrip(b, n);
  }
}
