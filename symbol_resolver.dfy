/** Resolution of a user-typed ticker to its NSE (".NS") or BSE (".BO")
    listing.  Existence is decided by the latest-price lookup of the data
    provider, which is a parameter here. */
module SymbolResolver {
  import opened Wrappers

  /** What the latest-price lookup does for one symbol: returns a price, returns
      None, or raises. */
  datatype PriceLookup = Found(price: real) | NotFound | Raised

  type LatestPrice = string -> PriceLookup

  const NseSuffix: string := ".NS"
  const BseSuffix: string := ".BO"

  /** The characters Python's `str.isspace` accepts, which `str.strip()` removes. */
  predicate IsSpace(c: char) {
    || c == ' ' || ('\t' <= c <= '\r') || ('\U{1c}' <= c <= '\U{1f}')
    || c == '\U{85}' || c == '\U{a0}' || c == '\U{1680}' || ('\U{2000}' <= c <= '\U{200a}')
    || c == '\U{2028}' || c == '\U{2029}' || c == '\U{202f}' || c == '\U{205f}' || c == '\U{3000}'
  }

  predicate AllSpace(s: string) {
    forall i :: 0 <= i < |s| ==> IsSpace(s[i])
  }

  /** Upper-casing of one character (ASCII letters only). */
  function ToUpper(c: char): (u: char)
    ensures IsSpace(c) ==> u == c
  {
    if 'a' <= c <= 'z' then (c as int - 'a' as int + 'A' as int) as char else c
  }

  /** `str.upper()`, character by character. */
  function Upper(s: string): (r: string)
    ensures |r| == |s| && forall i :: 0 <= i < |s| ==> r[i] == ToUpper(s[i])
  {
    seq(|s|, i requires 0 <= i < |s| => ToUpper(s[i]))
  }

  function StripLeft(s: string): string {
    if s != [] && IsSpace(s[0]) then StripLeft(s[1..]) else s
  }

  function StripRight(s: string): string {
    if s != [] && IsSpace(s[|s| - 1]) then StripRight(s[..|s| - 1]) else s
  }

  /** `str.strip()`: leading and trailing whitespace removed. */
  function Strip(s: string): string {
    StripRight(StripLeft(s))
  }

  /** `symbol.upper().strip()`, the first step of `resolve`. */
  function Normalize(s: string): string {
    Strip(Upper(s))
  }

  predicate EndsWith(s: string, suffix: string) {
    |suffix| <= |s| && s[|s| - |suffix|..] == suffix
  }

  predicate HasExchangeSuffix(s: string) {
    EndsWith(s, NseSuffix) || EndsWith(s, BseSuffix)
  }

  /** `SymbolResolver._check_exists`: true exactly when the latest-price lookup
      returns a price; a None result and an exception both give false. */
  function CheckExists(symbol: string, latestPrice: LatestPrice): (b: bool)
    ensures b <==> latestPrice(symbol).Found?
  {
    match latestPrice(symbol)
    case Found(_) => true
    case NotFound => false
    case Raised => false
  }

  /** `SymbolResolver.resolve`: normalise; a symbol that already carries an
      exchange suffix is checked as it is; otherwise ".NS" is tried first and
      ".BO" second. */
  function Resolve(symbol: string, latestPrice: LatestPrice): (r: Option<string>)
    ensures r.Some? ==> HasExchangeSuffix(r.value) && latestPrice(r.value).Found?
  {
    var s := Normalize(symbol);
    if HasExchangeSuffix(s) then
      if CheckExists(s, latestPrice) then Some(s) else None
    else if CheckExists(s + NseSuffix, latestPrice) then
      assert (s + NseSuffix)[|s|..] == NseSuffix;
      Some(s + NseSuffix)
    else if CheckExists(s + BseSuffix, latestPrice) then
      assert (s + BseSuffix)[|s|..] == BseSuffix;
      Some(s + BseSuffix)
    else None
  }

  /** An input that already ends in an exchange suffix is returned unchanged when
      it exists and is otherwise rejected: no second suffix is appended. */
  lemma ResolveSuffixed(symbol: string, latestPrice: LatestPrice)
    requires HasExchangeSuffix(Normalize(symbol))
    ensures Resolve(symbol, latestPrice).Some? <==> latestPrice(Normalize(symbol)).Found?
    ensures Resolve(symbol, latestPrice).Some? ==> Resolve(symbol, latestPrice).value == Normalize(symbol)
  {
  }

  /** For a bare symbol S the NSE listing wins whenever it exists, whether or not
      the BSE listing exists too. */
  lemma ResolvePrefersNse(symbol: string, latestPrice: LatestPrice)
    requires !HasExchangeSuffix(Normalize(symbol))
    requires latestPrice(Normalize(symbol) + NseSuffix).Found?
    ensures Resolve(symbol, latestPrice) == Some(Normalize(symbol) + NseSuffix)
  {
  }

  /** The BSE listing is chosen exactly when the NSE one does not exist and the
      BSE one does. */
  lemma ResolveFallsBackToBse(symbol: string, latestPrice: LatestPrice)
    requires !HasExchangeSuffix(Normalize(symbol))
    ensures Resolve(symbol, latestPrice) == Some(Normalize(symbol) + BseSuffix) <==>
      !latestPrice(Normalize(symbol) + NseSuffix).Found? && latestPrice(Normalize(symbol) + BseSuffix).Found?
  {
    var s := Normalize(symbol);
    assert s + NseSuffix != s + BseSuffix by {
      assert (s + NseSuffix)[|s| + 1] != (s + BseSuffix)[|s| + 1];
    }
  }

  /** None is returned exactly when no candidate listing exists; a result is the
      normalised input itself or the normalised input with one suffix added. */
  lemma ResolveNoneIffNoCandidate(symbol: string, latestPrice: LatestPrice)
    ensures var s := Normalize(symbol);
      Resolve(symbol, latestPrice).None? <==>
        if HasExchangeSuffix(s) then !latestPrice(s).Found?
        else !latestPrice(s + NseSuffix).Found? && !latestPrice(s + BseSuffix).Found?
    ensures var s := Normalize(symbol);
      Resolve(symbol, latestPrice).Some? ==>
        if HasExchangeSuffix(s) then Resolve(symbol, latestPrice).value == s
        else Resolve(symbol, latestPrice).value in {s + NseSuffix, s + BseSuffix}
  {
  }

  lemma {:induction false} StripLeftSpacePrefix(pre: string, s: string)
    requires AllSpace(pre)
    ensures StripLeft(pre + s) == StripLeft(s)
  {
    if pre == [] {
      assert pre + s == s;
    } else {
      assert (pre + s)[0] == pre[0] && (pre + s)[1..] == pre[1..] + s;
      StripLeftSpacePrefix(pre[1..], s);
    }
  }

  lemma {:induction false} StripRightSpaceSuffix(s: string, post: string)
    requires AllSpace(post)
    ensures StripRight(s + post) == StripRight(s)
  {
    if post == [] {
      assert s + post == s;
    } else {
      var n := |post|;
      assert (s + post)[|s + post| - 1] == post[n - 1];
      assert (s + post)[..|s + post| - 1] == s + post[..n - 1];
      StripRightSpaceSuffix(s, post[..n - 1]);
    }
  }

  /** StripLeft either consumes the whole string or leaves a suffix of it that
      starts with a non-space character. */
  lemma {:induction false} StripLeftAppend(s: string, post: string)
    ensures StripLeft(s) == [] ==> StripLeft(s + post) == StripLeft(post)
    ensures StripLeft(s) != [] ==> StripLeft(s + post) == StripLeft(s) + post
  {
    if s == [] {
      assert s + post == post;
    } else if IsSpace(s[0]) {
      assert (s + post)[1..] == s[1..] + post;
      StripLeftAppend(s[1..], post);
    }
  }

  lemma {:induction false} StripLeftAllSpace(s: string)
    requires AllSpace(s)
    ensures StripLeft(s) == []
  {
    if s != [] {
      StripLeftAllSpace(s[1..]);
    }
  }

  lemma {:induction false} StripLeftEmptyAllSpace(s: string)
    requires StripLeft(s) == []
    ensures AllSpace(s)
  {
    if s != [] {
      StripLeftEmptyAllSpace(s[1..]);
    }
  }

  /** Whitespace around the input does not change what it strips to. */
  lemma StripSurroundingSpace(pre: string, s: string, post: string)
    requires AllSpace(pre) && AllSpace(post)
    ensures Strip(pre + s + post) == Strip(s)
  {
    assert pre + s + post == pre + (s + post);
    StripLeftSpacePrefix(pre, s + post);
    StripLeftAppend(s, post);
    if StripLeft(s) == [] {
      StripLeftAllSpace(post);
    } else {
      StripRightSpaceSuffix(StripLeft(s), post);
    }
  }

  /** The result depends neither on the case of the input nor on whitespace
      around it. */
  lemma ResolveIgnoresCaseAndSpace(pre: string, a: string, post: string, b: string, latestPrice: LatestPrice)
    requires AllSpace(pre) && AllSpace(post) && Upper(a) == Upper(b)
    ensures Resolve(pre + a + post, latestPrice) == Resolve(b, latestPrice)
  {
    assert Upper(pre + a + post) == pre + Upper(a) + post;
    StripSurroundingSpace(pre, Upper(a), post);
  }
}
