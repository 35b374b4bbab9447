/** `apiFetch`, the front end's wrapper around `fetch`: it copies the
    caller's headers, adds the session's bearer token when there is one,
    and rewrites a string address: a leading "/api/" becomes "/", and an
    address that does not begin with "http" is resolved against the API
    base address. The session token is a parameter (`None` when there is no
    session); the resolution of a relative address (`new URL`) and the
    request itself are not modelled, so the result is the request that
    would be sent. */
module ApiFetch {
  import opened Wrappers
  import opened Strings
  import opened Records

  /** What the caller passes: an address string, or a `URL` or `Request`
      object, which is forwarded as it is. */
  datatype RequestInfo = Address(s: string) | UrlObject(href: string) | RequestObject(url: string)

  /** Where the request goes. */
  datatype Target =
    | Verbatim(url: string)                    // an absolute "http..." string
    | Resolved(path: string, base: string)     // `new URL(path, base).toString()`
    | Forwarded(input: RequestInfo)            // a non-string input, untouched

  /** A request as handed to `fetch`: its target and its headers, by
      lower-case name. */
  datatype Request = Request(target: Target, headers: seq<(string, string)>)

  /** `input.startsWith("/api/") ? input.replace(/^\/api\//, "/") : input`. */
  function NormalizePath(input: string): (r: string)
    ensures StartsWith(input, "/api/") ==> "/api" + r == input && StartsWith(r, "/")
    ensures !StartsWith(input, "/api/") ==> r == input
  {
    if StartsWith(input, "/api/") then "/" + input[5..] else input
  }

  /** The target of a call. */
  function TargetOf(input: RequestInfo, apiBase: string): (t: Target)
    ensures !input.Address? ==> t == Forwarded(input)
    ensures input.Address? && StartsWith(NormalizePath(input.s), "http") ==> t == Verbatim(NormalizePath(input.s))
    ensures input.Address? && !StartsWith(NormalizePath(input.s), "http") ==> t == Resolved(NormalizePath(input.s), apiBase)
  {
    match input
    case Address(s) =>
      var normalized := NormalizePath(s);
      if StartsWith(normalized, "http") then Verbatim(normalized) else Resolved(normalized, apiBase)
    case _ => Forwarded(input)
  }

  /** An API path written with the "/api" prefix and the same path written
      without it go to the same place (unless the path itself begins with
      another "/api/", which the single rewrite keeps). */
  lemma {:induction false} ApiPrefixOptional(path: string, apiBase: string)
    requires StartsWith(path, "/") && !StartsWith(path, "/api/")
    ensures TargetOf(Address("/api" + path), apiBase) == TargetOf(Address(path), apiBase)
  {
    var s := "/api" + path;
    assert s[..5] == "/api/";
    assert s[5..] == path[1..];
    assert "/" + path[1..] == path;
  }

  /** An absolute address is never rewritten, nor resolved. */
  lemma {:induction false} AbsoluteAddressVerbatim(url: string, apiBase: string)
    requires StartsWith(url, "http")
    ensures TargetOf(Address(url), apiBase) == Verbatim(url)
  {
    assert !StartsWith(url, "/api/") by {
      assert url[0] == 'h';
      if |url| >= 5 { assert url[..5][0] == 'h'; }
    }
  }

  /** `Headers.append` on a copy: a name already present gets the value
      joined with ", ", a new name is added at the end. */
  function Appended(m: seq<(string, string)>, name: string, value: string): seq<(string, string)>
  {
    match Get(m, Lower(name))
    case None => Set(m, Lower(name), value)
    case Some(w) => Set(m, Lower(name), w + ", " + value)
  }

  /** `new Headers(init)`: the caller's pairs appended in order. */
  function FromInit(init: seq<(string, string)>): seq<(string, string)>
  {
    if init == [] then []
    else Appended(FromInit(init[..|init| - 1]), init[|init| - 1].0, init[|init| - 1].1)
  }

  /** The headers object of a request. */
  class Headers {
    var entries: seq<(string, string)>

    constructor (init: seq<(string, string)>)
      ensures entries == FromInit(init)
    {
      var acc := [];
      for i := 0 to |init|
        invariant acc == FromInit(init[..i])
      {
        assert init[..i + 1][..i] == init[..i];
        acc := Appended(acc, init[i].0, init[i].1);
      }
      assert init[..|init|] == init;
      entries := acc;
    }

    /** `headers.set(name, value)`: the value replaces any value under the
        name. */
    method SetHeader(name: string, value: string)
      modifies this
      ensures entries == Set(old(entries), Lower(name), value)
    {
      entries := Set(entries, Lower(name), value);
    }
  }

  /** The session has a token (`if (token)`: a missing or empty token does
      not count). */
  predicate HasToken(token: Option<string>)
  {
    token.Some? && token.value != ""
  }

  /** `Headers` stores the name "Authorization" as "authorization". */
  lemma {:induction false} LowerAuthorization()
    ensures Lower("Authorization") == "authorization"
  {
    LowerUnfold();
    SmallRest();
    LowerKeepsSmall("uthorization");
    JoinLiteral();
  }

  lemma {:induction false} JoinLiteral()
    ensures ['a'] + "uthorization" == "authorization"
  {
  }

  lemma {:induction false} LowerUnfold()
    ensures Lower("Authorization") == ['a'] + Lower("uthorization")
  {
    var s := "Authorization";
    assert s[0] == 'A' && s[1..] == "uthorization";
    assert LowerChar('A') == 'a';
  }

  lemma {:induction false} SmallRest()
    ensures forall i :: 0 <= i < |"uthorization"| ==> 'a' <= "uthorization"[i] <= 'z'
  {
  }

  /** Lower-case letters are left as they are. */
  lemma {:induction false} LowerKeepsSmall(s: string)
    requires forall i :: 0 <= i < |s| ==> 'a' <= s[i] <= 'z'
    ensures Lower(s) == s
  {
    assert forall i :: 0 <= i < |s| ==> Lower(s)[i] == s[i];
  }

  /** The request `apiFetch` sends. */
  method Fetch(input: RequestInfo, initHeaders: seq<(string, string)>, token: Option<string>, apiBase: string)
    returns (req: Request)
    ensures req.target == TargetOf(input, apiBase)
    ensures HasToken(token) ==> Get(req.headers, "authorization") == Some("Bearer " + token.value)
    ensures !HasToken(token) ==> req.headers == FromInit(initHeaders)
    ensures forall k :: k != "authorization" ==> Get(req.headers, k) == Get(FromInit(initHeaders), k)
  {
    var headers := new Headers(initHeaders);
    if token.Some? && token.value != "" {
      headers.SetHeader("Authorization", "Bearer " + token.value);
      LowerAuthorization();
    }
    req := Request(TargetOf(input, apiBase), headers.entries);
  }
}
