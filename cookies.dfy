/** Cookie serialisation of oak's `cookies` module: the field-content check
    `validateCookieProperty`, the `Cookie` object with its defaults and its
    `Set-Cookie` rendering (section 4.1 of RFC 6265), the in-place list
    update `pushCookie`, and the guards of `Cookies.set` and
    `Cookies.delete`.  Clocks, date formatting and signing are parameters. */
module Cookies {
  import opened Wrappers
  import opened Casing

  /** The `TypeError`s of this module. */
  datatype CookieError =
    | InvalidProperty(key: string, value: string)
    | InvalidSameSite(value: string)
    | InsecureConnection
    | KeysRequired

  // ------------------------------------------------- validateCookieProperty

  /** One character `FIELD_CONTENT_REGEXP` admits: tab, 0x20-0x7E or 0x80-0xFF. */
  predicate IsFieldChar(c: char) {
    c == '\t' || (' ' <= c <= '~') || ('\U{80}' <= c <= '\U{FF}')
  }

  /** `FIELD_CONTENT_REGEXP.test(v)`, matched one character at a time. */
  function MatchesFieldContent(v: string): (b: bool)
    ensures b <==> |v| > 0 && forall k :: 0 <= k < |v| ==> IsFieldChar(v[k])
  {
    if |v| == 0 then false
    else if |v| == 1 then IsFieldChar(v[0])
    else IsFieldChar(v[0]) && MatchesFieldContent(v[1..])
  }

  /** `validateCookieProperty(key, value)`: a missing or empty value passes. */
  function ValidateProperty(key: string, value: Option<string>): (r: Result<(), CookieError>)
    ensures r.Err? <==>
      value.Some? && value.value != "" && exists k :: 0 <= k < |value.value| && !IsFieldChar(value.value[k])
    ensures r.Err? ==> r == Err(InvalidProperty(key, value.value))
  {
    if value.Some? && value.value != "" && !MatchesFieldContent(value.value) then
      Err(InvalidProperty(key, value.value))
    else Ok(())
  }

  // --------------------------------------------------------------- Cookie

  /** `sameSite`: `false`, `true` or a string. */
  datatype SameSite = Off | On | Named(name: string)

  /** Whether `sameSite` is truthy (the empty string is not). */
  predicate SameSiteSet(s: SameSite) {
    s.On? || (s.Named? && s.name != "")
  }

  /** `SAME_SITE_REGEXP`: `lax`, `none` or `strict`, in any case.  Its `i`
      flag folds only ASCII letters onto ASCII letters. */
  predicate IsSameSiteName(v: string) {
    var l := Lower(v);
    l == "lax" || l == "none" || l == "strict"
  }

  /** The attributes a caller may pass; `None` is a property not present.
      `signed` is read by `set` only. */
  datatype Attributes = Attributes(
    domain: Option<string>, expires: Option<int>, httpOnly: Option<bool>, maxAge: Option<int>,
    overwrite: Option<bool>, path: Option<string>, sameSite: Option<SameSite>, secure: Option<bool>,
    signed: Option<bool>)

  const NoAttributes := Attributes(None, None, None, None, None, None, None, None, None)

  /** The fields of a `Cookie`.  Dates are milliseconds since the epoch. */
  datatype CookieData = CookieData(
    name: string, value: string, path: string, domain: Option<string>, expires: Option<int>,
    maxAge: Option<int>, sameSite: SameSite, secure: bool, httpOnly: bool, overwrite: bool)

  /** The fields after the constructor's assignments: the defaults, then the
      attributes given, then the epoch expiry of a cookie without a value. */
  function Initial(name: string, value: Option<string>, a: Attributes): (d: CookieData)
    ensures d.name == name && d.value == value.GetOr("")
    ensures d.httpOnly == a.httpOnly.GetOr(true) && d.overwrite == a.overwrite.GetOr(false)
    ensures d.path == a.path.GetOr("/") && d.sameSite == a.sameSite.GetOr(Off)
    ensures d.secure == a.secure.GetOr(false) && d.domain == a.domain
    ensures d.value == "" ==> d.expires == Some(0) && d.maxAge == None
    ensures d.value != "" ==> d.expires == a.expires && d.maxAge == a.maxAge
  {
    var v := value.GetOr("");
    var d0 := CookieData(name, v, a.path.GetOr("/"), a.domain, a.expires, a.maxAge, a.sameSite.GetOr(Off),
                         a.secure.GetOr(false), a.httpOnly.GetOr(true), a.overwrite.GetOr(false));
    if v == "" then d0.(expires := Some(0), maxAge := None) else d0
  }

  /** The constructor's checks, in its order: name, value, path, domain,
      then a `sameSite` string. */
  function CheckCookie(name: string, value: Option<string>, a: Attributes): Result<(), CookieError>
  {
    var d := Initial(name, value, a);
    var vn := ValidateProperty("name", Some(name));
    var vv := ValidateProperty("value", value);
    var vp := ValidateProperty("path", Some(d.path));
    var vd := ValidateProperty("domain", d.domain);
    if vn.Err? then vn
    else if vv.Err? then vv
    else if vp.Err? then vp
    else if vd.Err? then vd
    else if d.sameSite.Named? && SameSiteSet(d.sameSite) && !IsSameSiteName(d.sameSite.name) then
      Err(InvalidSameSite(d.sameSite.name))
    else Ok(())
  }

  /** `toString()`: `name=value`. */
  function Pair(d: CookieData): (r: string)
    ensures '=' !in d.name ==> IndexOf(r, '=') == Some(|d.name|)
    ensures |r| == |d.name| + 1 + |d.value| && r[..|d.name|] == d.name && r[|d.name| + 1..] == d.value
    ensures r[|d.name|] == '='
  {
    var r := d.name + "=" + d.value;
    assert r[..|d.name|] == d.name && r[|d.name|] == '=';
    assert r[|d.name| + 1..] == d.value;
    PairIndex(d.name, d.value);
    r
  }

  lemma PairIndex(name: string, value: string)
    ensures '=' !in name ==> IndexOf(name + "=" + value, '=') == Some(|name|)
  {
    var r := name + "=" + value;
    if '=' !in name {
      assert r[..|name|] == name && r[|name|] == '=';
      IndexOfFirst(r, '=', |name|);
    }
  }

  /** Where `c` first occurs in `s`. */
  function IndexOf(s: string, c: char): (r: Option<nat>)
    ensures r.Some? ==> r.value < |s| && s[r.value] == c && c !in s[..r.value]
    ensures r.None? ==> c !in s
  {
    if s == [] then None
    else if s[0] == c then Some(0)
    else match IndexOf(s[1..], c)
      case None => None
      case Some(k) => assert s[..k + 1] == [s[0]] + s[1..][..k]; Some(k + 1)
  }

  lemma {:induction false} IndexOfFirst(s: string, c: char, k: nat)
    requires k < |s| && s[k] == c && c !in s[..k]
    ensures IndexOf(s, c) == Some(k)
  {
    if k > 0 {
      assert s[0] in s[..k];
      assert s[1..][..k - 1] == s[1..k];
      assert forall x :: x in s[1..k] ==> x in s[..k];
      IndexOfFirst(s[1..], c, k - 1);
    }
  }

  /** `toHeader`'s own change: a truthy `maxAge` resets `expires` to `now + maxAge`. */
  function Refreshed(d: CookieData, now: int): CookieData {
    if d.maxAge.Some? && d.maxAge.value != 0 then d.(expires := Some(now + d.maxAge.value)) else d
  }

  /** The attributes `toHeader` can write, in its order. */
  datatype AttrName = PathAttr | ExpiresAttr | DomainAttr | SameSiteAttr | SecureAttr | HttpOnlyAttr

  function Rank(n: AttrName): nat {
    match n
    case PathAttr => 0
    case ExpiresAttr => 1
    case DomainAttr => 2
    case SameSiteAttr => 3
    case SecureAttr => 4
    case HttpOnlyAttr => 5
  }

  /** What an attribute starts with: `; key=`, or `; key` when it has no value. */
  function Prefix(n: AttrName): string {
    match n
    case PathAttr => "; path="
    case ExpiresAttr => "; expires="
    case DomainAttr => "; domain="
    case SameSiteAttr => "; samesite="
    case SecureAttr => "; secure"
    case HttpOnlyAttr => "; httponly"
  }

  /** One attribute of a header, with its value if it has one. */
  datatype Attr = Attr(name: AttrName, value: Option<string>)

  /** Whether the field behind an attribute is truthy. */
  predicate HasAttr(d: CookieData, n: AttrName) {
    match n
    case PathAttr => d.path != ""
    case ExpiresAttr => d.expires.Some?
    case DomainAttr => d.domain.Some? && d.domain.value != ""
    case SameSiteAttr => SameSiteSet(d.sameSite)
    case SecureAttr => d.secure
    case HttpOnlyAttr => d.httpOnly
  }

  /** How `samesite` is written: `true` as `strict`, a string lower-cased. */
  function SameSiteText(s: SameSite): string {
    if s.Named? then Lower(s.name) else "strict"
  }

  /** The value an attribute carries. */
  function AttrValue(d: CookieData, n: AttrName, utc: int -> string): Option<string> {
    match n
    case PathAttr => Some(d.path)
    case ExpiresAttr => if d.expires.Some? then Some(utc(d.expires.value)) else None
    case DomainAttr => d.domain
    case SameSiteAttr => Some(SameSiteText(d.sameSite))
    case SecureAttr => None
    case HttpOnlyAttr => None
  }

  function Optional(d: CookieData, n: AttrName, utc: int -> string): seq<Attr> {
    if HasAttr(d, n) then [Attr(n, AttrValue(d, n, utc))] else []
  }

  /** The order in which `toHeader` writes the attributes. */
  const AttrOrder: seq<AttrName> := [PathAttr, ExpiresAttr, DomainAttr, SameSiteAttr, SecureAttr, HttpOnlyAttr]

  /** Those of `names` whose field is truthy, each with its value, in the order of `names`. */
  function Present(d: CookieData, names: seq<AttrName>, utc: int -> string): seq<Attr> {
    if names == [] then []
    else Present(d, names[..|names| - 1], utc) + Optional(d, names[|names| - 1], utc)
  }

  /** The attributes of a header: each one whose field is truthy, in the
      fixed order path, expires, domain, samesite, secure, httponly. */
  function Attrs(d: CookieData, utc: int -> string): seq<Attr> {
    Present(d, AttrOrder, utc)
  }

  /** `; key` or `; key=value`. */
  function RenderAttr(a: Attr): string {
    Prefix(a.name) + (if a.value.Some? then a.value.value else "")
  }

  /** The attributes written one after the other. */
  function Render(attrs: seq<Attr>): string {
    if attrs == [] then "" else RenderAttr(attrs[0]) + Render(attrs[1..])
  }

  /** The `Set-Cookie` value `toHeader` returns for fields `d`. */
  function SetCookieHeader(d: CookieData, utc: int -> string): string {
    Pair(d) + AttrText(d, utc)
  }

  /** One mutable `Cookie`. */
  class Cookie {
    var name: string
    var value: string
    var path: string
    var domain: Option<string>
    var expires: Option<int>
    var maxAge: Option<int>
    var sameSite: SameSite
    var secure: bool
    var httpOnly: bool
    var overwrite: bool

    function Data(): CookieData
      reads this
    {
      CookieData(name, value, path, domain, expires, maxAge, sameSite, secure, httpOnly, overwrite)
    }

    /** The constructor's assignments; its checks are in `NewCookie`.  Each
        field takes its default unless the attributes give it (`Object.assign`). */
    constructor (name: string, value: Option<string>, a: Attributes)
      ensures Data() == Initial(name, value, a)
    {
      this.name := name;
      this.value := value.GetOr("");
      httpOnly := a.httpOnly.GetOr(true);
      overwrite := a.overwrite.GetOr(false);
      path := a.path.GetOr("/");
      sameSite := a.sameSite.GetOr(Off);
      secure := a.secure.GetOr(false);
      domain := a.domain;
      if value.GetOr("") == "" {
        expires := Some(0);
        maxAge := None;
      } else {
        expires := a.expires;
        maxAge := a.maxAge;
      }
    }

    /** `toString()`. */
    function ToString(): (r: string)
      reads this
      ensures r == Pair(Data())
    {
      name + "=" + value
    }

    /** `toHeader()`: refreshes `expires` from `maxAge`, then writes the
        pair and the attributes. */
    method ToHeader(now: int, utc: int -> string) returns (header: string)
      modifies this
      ensures Data() == Refreshed(old(Data()), now)
      ensures header == SetCookieHeader(Data(), utc)
    {
      header := ToString();
      if maxAge.Some? && maxAge.value != 0 {
        expires := Some(now + maxAge.value);
      }
      var attrs := RenderAttributes(Data(), utc);
      header := header + attrs;
    }
  }

  /** The attribute part of `toHeader`, one attribute after the other. */
  method RenderAttributes(d: CookieData, utc: int -> string) returns (header: string)
    ensures header == AttrText(d, utc)
  {
    header := "";
    header := AppendAttribute(header, d, PathAttr, utc);
    PiecesSnoc(d, AttrOrder, 0, utc);
    assert header == Pieces(d, AttrOrder[..1], utc);
    header := AppendAttribute(header, d, ExpiresAttr, utc);
    PiecesSnoc(d, AttrOrder, 1, utc);
    assert header == Pieces(d, AttrOrder[..2], utc);
    header := AppendAttribute(header, d, DomainAttr, utc);
    PiecesSnoc(d, AttrOrder, 2, utc);
    assert header == Pieces(d, AttrOrder[..3], utc);
    header := AppendAttribute(header, d, SameSiteAttr, utc);
    PiecesSnoc(d, AttrOrder, 3, utc);
    assert header == Pieces(d, AttrOrder[..4], utc);
    header := AppendAttribute(header, d, SecureAttr, utc);
    PiecesSnoc(d, AttrOrder, 4, utc);
    assert header == Pieces(d, AttrOrder[..5], utc);
    header := AppendAttribute(header, d, HttpOnlyAttr, utc);
    PiecesSnoc(d, AttrOrder, 5, utc);
    assert header == Pieces(d, AttrOrder[..6], utc);
    assert AttrOrder[..6] == AttrOrder;
  }

  lemma PiecesSnoc(d: CookieData, names: seq<AttrName>, k: nat, utc: int -> string)
    requires k < |names|
    ensures Pieces(d, names[..k + 1], utc) == Pieces(d, names[..k], utc) + Piece(d, names[k], utc)
  {
    assert names[..k + 1][..k] == names[..k];
  }

  /** Appends `; key=value` (or `; key`) when the field behind `n` is truthy. */
  method AppendAttribute(header0: string, d: CookieData, n: AttrName, utc: int -> string) returns (header: string)
    ensures header == header0 + Piece(d, n, utc)
  {
    header := header0;
    if HasAttr(d, n) {
      var value := AttrValue(d, n, utc);
      header := header + Prefix(n);
      if value.Some? {
        header := header + value.value;
      }
    }
  }

  /** The text of one attribute, empty when its field is not truthy. */
  function Piece(d: CookieData, n: AttrName, utc: int -> string): string {
    if HasAttr(d, n) then RenderAttr(Attr(n, AttrValue(d, n, utc))) else ""
  }

  /** The texts of `names`, one after the other. */
  function Pieces(d: CookieData, names: seq<AttrName>, utc: int -> string): string {
    if names == [] then "" else Pieces(d, names[..|names| - 1], utc) + Piece(d, names[|names| - 1], utc)
  }

  /** The attribute part of a header, piece by piece. */
  function AttrText(d: CookieData, utc: int -> string): string {
    Pieces(d, AttrOrder, utc)
  }

  lemma {:induction false} RenderConcat(xs: seq<Attr>, ys: seq<Attr>)
    ensures Render(xs + ys) == Render(xs) + Render(ys)
  {
    if xs == [] {
      assert xs + ys == ys;
    } else {
      assert (xs + ys)[1..] == xs[1..] + ys;
      RenderConcat(xs[1..], ys);
    }
  }

  /** The attribute list renders to the attribute text. */
  lemma {:induction false} RenderPresent(d: CookieData, names: seq<AttrName>, utc: int -> string)
    ensures Render(Present(d, names, utc)) == Pieces(d, names, utc)
  {
    if names != [] {
      var init := names[..|names| - 1];
      var n := names[|names| - 1];
      RenderPresent(d, init, utc);
      RenderConcat(Present(d, init, utc), Optional(d, n, utc));
      if HasAttr(d, n) {
        assert Optional(d, n, utc)[1..] == [];
      }
    }
  }

  /** An attribute is in the list exactly when its name is among `names`,
      its field is truthy, and it carries that field's value. */
  lemma {:induction false} PresentMembers(d: CookieData, names: seq<AttrName>, utc: int -> string, x: Attr)
    ensures x in Present(d, names, utc) <==> x.name in names && HasAttr(d, x.name) && x.value == AttrValue(d, x.name, utc)
  {
    if names != [] {
      var init := names[..|names| - 1];
      PresentMembers(d, init, utc, x);
      assert names == init + [names[|names| - 1]];
    }
  }

  /** Names of increasing rank give attributes of increasing rank. */
  lemma {:induction false} PresentOrdered(d: CookieData, names: seq<AttrName>, utc: int -> string)
    requires forall i, j :: 0 <= i < j < |names| ==> Rank(names[i]) < Rank(names[j])
    ensures var p := Present(d, names, utc);
      forall i, j :: 0 <= i < j < |p| ==> Rank(p[i].name) < Rank(p[j].name)
  {
    if names != [] {
      var init := names[..|names| - 1];
      var n := names[|names| - 1];
      var rest := Present(d, init, utc);
      PresentOrdered(d, init, utc);
      forall i | 0 <= i < |rest| ensures Rank(rest[i].name) < Rank(n) {
        PresentMembers(d, init, utc, rest[i]);
        var k :| 0 <= k < |init| && init[k] == rest[i].name;
      }
      var o := Optional(d, n, utc);
      var p := Present(d, names, utc);
      assert p == rest + o;
      forall i, j | 0 <= i < j < |p| ensures Rank(p[i].name) < Rank(p[j].name) {
        if j < |rest| {
          assert p[i] == rest[i] && p[j] == rest[j];
        } else {
          assert p[j] == Attr(n, AttrValue(d, n, utc));
          assert p[i] == rest[i];
        }
      }
    }
  }

  /** `toHeader` writes each attribute at most once, in the fixed order, and
      exactly those whose field is truthy. */
  lemma AttrsInOrder(d: CookieData, utc: int -> string)
    ensures Render(Attrs(d, utc)) == AttrText(d, utc)
    ensures var p := Attrs(d, utc); forall i, j :: 0 <= i < j < |p| ==> Rank(p[i].name) < Rank(p[j].name)
    ensures forall x :: x in Attrs(d, utc) <==> HasAttr(d, x.name) && x.value == AttrValue(d, x.name, utc)
  {
    RenderPresent(d, AttrOrder, utc);
    PresentOrdered(d, AttrOrder, utc);
    forall x ensures x in Attrs(d, utc) <==> HasAttr(d, x.name) && x.value == AttrValue(d, x.name, utc) {
      PresentMembers(d, AttrOrder, utc, x);
      assert x.name in AttrOrder by {
        match x.name
        case PathAttr => assert AttrOrder[0] == PathAttr;
        case ExpiresAttr => assert AttrOrder[1] == ExpiresAttr;
        case DomainAttr => assert AttrOrder[2] == DomainAttr;
        case SameSiteAttr => assert AttrOrder[3] == SameSiteAttr;
        case SecureAttr => assert AttrOrder[4] == SecureAttr;
        case HttpOnlyAttr => assert AttrOrder[5] == HttpOnlyAttr;
      }
    }
  }

  /** `new Cookie(name, value, attributes)`, which throws on the first check
      that fails. */
  method NewCookie(name: string, value: Option<string>, a: Attributes) returns (r: Result<Cookie, CookieError>)
    ensures CheckCookie(name, value, a) == if r.Ok? then Ok(()) else Err(r.error)
    ensures r.Ok? ==> fresh(r.value) && r.value.Data() == Initial(name, value, a)
  {
    var check := ValidateProperty("name", Some(name));
    if check.Err? {
      return Err(check.error);
    }
    check := ValidateProperty("value", value);
    if check.Err? {
      return Err(check.error);
    }
    var c := new Cookie(name, value, a);
    check := ValidateProperty("path", Some(c.path));
    if check.Err? {
      return Err(check.error);
    }
    check := ValidateProperty("domain", c.domain);
    if check.Err? {
      return Err(check.error);
    }
    if c.sameSite.Named? && SameSiteSet(c.sameSite) && !IsSameSiteName(c.sameSite.name) {
      return Err(InvalidSameSite(c.sameSite.name));
    }
    r := Ok(c);
  }

  // ----------------------------------------------------------- pushCookie

  predicate StartsWith(s: string, prefix: string) {
    |prefix| <= |s| && s[..|prefix|] == prefix
  }

  /** The entries that do not begin with `prefix`, in their order. */
  function Keep(headers: seq<string>, prefix: string): (r: seq<string>)
    ensures |r| <= |headers|
  {
    if headers == [] then []
    else (if StartsWith(headers[0], prefix) then [] else [headers[0]]) + Keep(headers[1..], prefix)
  }

  /** What `pushCookie` leaves in the list for a cookie with fields `d`. */
  function Pushed(headers: seq<string>, d: CookieData, now: int, utc: int -> string): seq<string> {
    (if d.overwrite then Keep(headers, d.name + "=") else headers) + [SetCookieHeader(Refreshed(d, now), utc)]
  }

  /** `pushCookie(headers, cookie)`: with `overwrite`, first removes the
      entries for the cookie's name, then appends the cookie's header. */
  method PushCookie(headers0: seq<string>, cookie: Cookie, now: int, utc: int -> string) returns (headers: seq<string>)
    modifies cookie
    ensures cookie.Data() == Refreshed(old(cookie.Data()), now)
    ensures headers == Pushed(headers0, old(cookie.Data()), now, utc)
  {
    headers := headers0;
    if cookie.overwrite {
      headers := RemoveEntries(headers, cookie.name + "=");
    }
    var h := cookie.ToHeader(now, utc);
    headers := headers + [h];
  }

  /** The backward loop of `pushCookie`: every entry that begins with
      `prefix` is spliced out, from the back of the list forward. */
  method RemoveEntries(headers0: seq<string>, prefix: string) returns (headers: seq<string>)
    ensures headers == Keep(headers0, prefix)
  {
    headers := headers0;
    var i := |headers0|;
    while i > 0
      invariant 0 <= i <= |headers0|
      invariant headers == headers0[..i] + Keep(headers0[i..], prefix)
    {
      i := i - 1;
      ghost var rest := Keep(headers0[i + 1..], prefix);
      assert headers0[i..] == [headers0[i]] + headers0[i + 1..];
      KeepCons(headers0[i], headers0[i + 1..], prefix);
      assert headers == headers0[..i] + [headers0[i]] + rest by {
        assert headers0[..i + 1] == headers0[..i] + [headers0[i]];
      }
      if StartsWith(headers[i], prefix) {
        assert headers[..i] == headers0[..i];
        assert headers[i + 1..] == rest;
        headers := headers[..i] + headers[i + 1..];
      }
    }
    assert headers0[0..] == headers0;
  }

  lemma KeepCons(h: string, rest: seq<string>, prefix: string)
    ensures Keep([h] + rest, prefix) == (if StartsWith(h, prefix) then [] else [h]) + Keep(rest, prefix)
  {
    assert ([h] + rest)[1..] == rest;
  }

  /** `Keep` keeps exactly the entries that do not begin with `prefix`. */
  lemma {:induction false} KeepMembers(headers: seq<string>, prefix: string, x: string)
    ensures x in Keep(headers, prefix) <==> x in headers && !StartsWith(x, prefix)
  {
    if headers != [] {
      KeepMembers(headers[1..], prefix, x);
      assert headers == [headers[0]] + headers[1..];
    }
  }

  /** Without an entry beginning with `prefix`, `Keep` changes nothing. */
  lemma {:induction false} KeepUnmatched(headers: seq<string>, prefix: string)
    requires forall k :: 0 <= k < |headers| ==> !StartsWith(headers[k], prefix)
    ensures Keep(headers, prefix) == headers
  {
    if headers != [] {
      KeepUnmatched(headers[1..], prefix);
    }
  }

  // ------------------------------------------------- Cookies.set and delete

  /** What a `Cookies` object was created with: whether it has signing
      keys, and its `secure` option. */
  datatype CookiesOptions = CookiesOptions(keys: bool, secure: Option<bool>)

  /** The fields of the cookie `set` creates: `secure` is the option, or
      else whether the connection is secure. */
  function SetCookieData(name: string, value: Option<string>, a: Attributes, secure: bool): CookieData {
    Secured(Initial(name, value, a), a.secure.GetOr(secure))
  }

  /** The fields after `cookie.secure = secure`. */
  function Secured(d: CookieData, secure: bool): CookieData {
    d.(secure := secure)
  }

  /** The signature cookie: named `name.sig`, its value the signature of `name=value`. */
  function Signature(d: CookieData, sign: string -> string): CookieData {
    d.(value := sign(Pair(d)), name := d.name + ".sig")
  }

  /** The connection's security as `set` takes it: the `secure` option of
      the `Cookies` object, or else the request's. */
  function EffectiveSecure(opts: CookiesOptions, requestSecure: bool): bool {
    opts.secure.GetOr(requestSecure)
  }

  /** Whether `set` signs: the `signed` option, or else whether there are keys. */
  function Signed(opts: CookiesOptions, a: Attributes): bool {
    a.signed.GetOr(opts.keys)
  }

  /** The signing step of `set`: the cookie's value becomes the signature
      of its `toString()`, and its name gains the suffix `.sig`. */
  method SignCookie(cookie: Cookie, sign: string -> string)
    modifies cookie
    ensures cookie.Data() == Signature(old(cookie.Data()), sign)
  {
    var text := cookie.ToString();
    cookie.value := sign(text);
    cookie.name := cookie.name + ".sig";
  }

  /** The outcome of `set`: the `Set-Cookie` values it appends, or the error
      it throws before appending any. */
  function SetOutcome(opts: CookiesOptions, requestSecure: bool, existing: Option<string>, name: string,
                      value: Option<string>, a: Attributes, now: int, utc: int -> string,
                      sign: string -> string): Result<seq<string>, CookieError>
  {
    var headers := if existing.Some? then [existing.value] else [];
    var secure := EffectiveSecure(opts, requestSecure);
    if !secure && a.secure == Some(true) then Err(InsecureConnection)
    else ValidOutcome(headers, name, value, a, secure, Signed(opts, a), opts.keys, now, utc, sign)
  }

  /** `set` past its first check: the constructor's checks, then the pushes. */
  function ValidOutcome(headers: seq<string>, name: string, value: Option<string>, a: Attributes, secure: bool,
                        signed: bool, keys: bool, now: int, utc: int -> string, sign: string -> string)
    : Result<seq<string>, CookieError>
  {
    if CheckCookie(name, value, a).Err? then Err(CheckCookie(name, value, a).error)
    else SetChecked(headers, SetCookieData(name, value, a, secure), signed, keys, now, utc, sign)
  }

  /** The rest of `set` once the cookie is built with fields `d`: push it,
      then, when signing, its signature cookie, which needs keys. */
  function SetChecked(headers: seq<string>, d: CookieData, signed: bool, keys: bool, now: int,
                      utc: int -> string, sign: string -> string): Result<seq<string>, CookieError>
  {
    var first := Pushed(headers, d, now, utc);
    if !signed then Ok(first)
    else if !keys then Err(KeysRequired)
    else Ok(Pushed(first, Signature(Refreshed(d, now), sign), now, utc))
  }

  /** `cookies.set(name, value, options)`. */
  method Set(opts: CookiesOptions, requestSecure: bool, existing: Option<string>, name: string,
             value: Option<string>, a: Attributes, now: int, utc: int -> string, sign: string -> string)
    returns (r: Result<seq<string>, CookieError>)
    ensures r == SetOutcome(opts, requestSecure, existing, name, value, a, now, utc, sign)
  {
    var headers := if existing.Some? then [existing.value] else [];
    var secure := EffectiveSecure(opts, requestSecure);
    var signed := Signed(opts, a);
    if !secure && a.secure == Some(true) {
      return Err(InsecureConnection);
    }
    r := BuildAndPush(headers, name, value, a, secure, signed, opts.keys, now, utc, sign);
  }

  /** `new Cookie(name, value, options)` and the pushes of `set`. */
  method BuildAndPush(headers: seq<string>, name: string, value: Option<string>, a: Attributes, secure: bool,
                      signed: bool, keys: bool, now: int, utc: int -> string, sign: string -> string)
    returns (r: Result<seq<string>, CookieError>)
    ensures r == ValidOutcome(headers, name, value, a, secure, signed, keys, now, utc, sign)
  {
    var c := NewCookie(name, value, a);
    match c
    case Err(e) => r := Err(e);
    case Ok(cookie) => r := PushSetCookies(headers, cookie, a.secure.GetOr(secure), signed, keys, now, utc, sign);
  }

  /** The rest of `set` on the new cookie: it takes `secure`, is pushed,
      then, when signing, its signature cookie is pushed. */
  method PushSetCookies(headers0: seq<string>, cookie: Cookie, secure: bool, signed: bool, keys: bool,
                        now: int, utc: int -> string, sign: string -> string)
    returns (r: Result<seq<string>, CookieError>)
    modifies cookie
    ensures r == SetChecked(headers0, Secured(old(cookie.Data()), secure), signed, keys, now, utc, sign)
  {
    cookie.secure := secure;
    ghost var d := cookie.Data();
    var headers := PushCookie(headers0, cookie, now, utc);
    if !signed {
      return Ok(headers);
    }
    if !keys {
      return Err(KeysRequired);
    }
    assert cookie.Data() == Refreshed(d, now);
    headers := PushSignature(headers, cookie, now, utc, sign);
    r := Ok(headers);
  }

  /** The signed half of `set`: the cookie, already pushed, is turned into
      its signature cookie and pushed again. */
  method PushSignature(headers0: seq<string>, cookie: Cookie, now: int, utc: int -> string, sign: string -> string)
    returns (headers: seq<string>)
    modifies cookie
    ensures headers == Pushed(headers0, Signature(old(cookie.Data()), sign), now, utc)
  {
    SignCookie(cookie, sign);
    headers := PushCookie(headers0, cookie, now, utc);
  }

  /** `cookies.delete(name, options)`: `set(name, null, options)`; it
      returns `true` whenever `set` does not throw. */
  method Delete(opts: CookiesOptions, requestSecure: bool, existing: Option<string>, name: string,
                a: Attributes, now: int, utc: int -> string, sign: string -> string)
    returns (r: Result<seq<string>, CookieError>)
    ensures r == SetOutcome(opts, requestSecure, existing, name, None, a, now, utc, sign)
  {
    r := Set(opts, requestSecure, existing, name, None, a, now, utc, sign);
  }

  // ----------------------------------------------------------- properties

  /** A secure cookie over an insecure connection is refused, and that is
      the only way `set` yields this error. */
  lemma SetInsecure(opts: CookiesOptions, requestSecure: bool, existing: Option<string>, name: string,
                    value: Option<string>, a: Attributes, now: int, utc: int -> string, sign: string -> string)
    ensures SetOutcome(opts, requestSecure, existing, name, value, a, now, utc, sign) == Err(InsecureConnection)
      <==> !EffectiveSecure(opts, requestSecure) && a.secure == Some(true)
  {
  }

  /** The constructor throws only its own two kinds of error. */
  lemma CheckCookieErrors(name: string, value: Option<string>, a: Attributes)
    ensures CheckCookie(name, value, a).Err? ==>
      CheckCookie(name, value, a).error.InvalidProperty? || CheckCookie(name, value, a).error.InvalidSameSite?
  {
  }

  /** Once name, value, path and domain are valid, the constructor throws
      exactly for a non-empty `sameSite` string other than lax, none or
      strict in any case. */
  lemma SameSiteGuard(name: string, value: Option<string>, a: Attributes)
    requires ValidateProperty("name", Some(name)).Ok? && ValidateProperty("value", value).Ok?
    requires ValidateProperty("path", Some(a.path.GetOr("/"))).Ok? && ValidateProperty("domain", a.domain).Ok?
    ensures CheckCookie(name, value, a).Err? <==>
      a.sameSite.Some? && a.sameSite.value.Named? && a.sameSite.value.name != "" && !IsSameSiteName(a.sameSite.value.name)
    ensures CheckCookie(name, value, a).Err? ==> CheckCookie(name, value, a) == Err(InvalidSameSite(a.sameSite.value.name))
  {
  }

  /** `set` fails with each of its errors exactly when its check says so. */
  lemma SetErrors(opts: CookiesOptions, requestSecure: bool, existing: Option<string>, name: string,
                  value: Option<string>, a: Attributes, now: int, utc: int -> string, sign: string -> string)
    ensures var r := SetOutcome(opts, requestSecure, existing, name, value, a, now, utc, sign);
      var refused := !EffectiveSecure(opts, requestSecure) && a.secure == Some(true);
      var check := CheckCookie(name, value, a);
      && (r == Err(KeysRequired) <==> !refused && check.Ok? && Signed(opts, a) && !opts.keys)
      && (!refused && check.Err? ==> r == Err(check.error))
      && (r.Ok? <==> !refused && check.Ok? && (Signed(opts, a) ==> opts.keys))
  {
    CheckCookieErrors(name, value, a);
  }

  lemma {:induction false} KeepSnoc(xs: seq<string>, h: string, prefix: string)
    ensures Keep(xs + [h], prefix) == Keep(xs, prefix) + (if StartsWith(h, prefix) then [] else [h])
  {
    var tail := if StartsWith(h, prefix) then [] else [h];
    if xs == [] {
      assert xs + [h] == [h];
      assert [h][1..] == [];
      assert Keep([h], prefix) == tail + [];
    } else {
      var head := if StartsWith(xs[0], prefix) then [] else [xs[0]];
      assert (xs + [h])[0] == xs[0];
      assert (xs + [h])[1..] == xs[1..] + [h];
      KeepSnoc(xs[1..], h, prefix);
      calc {
        Keep(xs + [h], prefix);
        head + Keep(xs[1..] + [h], prefix);
        head + (Keep(xs[1..], prefix) + tail);
        (head + Keep(xs[1..], prefix)) + tail;
        Keep(xs, prefix) + tail;
      }
    }
  }

  lemma StartsWithConcat(x: string, y: string)
    ensures StartsWith(x + y, x)
  {
    assert (x + y)[..|x|] == x;
  }

  /** The header of a cookie named `name` does not begin with `name.sig=`,
      so pushing the signature cookie keeps it. */
  lemma SignatureSpares(d: CookieData, utc: int -> string)
    ensures !StartsWith(SetCookieHeader(d, utc), d.name + ".sig" + "=")
  {
    var h := SetCookieHeader(d, utc);
    assert h[|d.name|] == Pair(d)[|d.name|] == '=';
    var p := d.name + ".sig" + "=";
    assert p[|d.name|] == '.';
  }

  /** The pushes of `set` append the cookie's header last, or, when it
      signs, the cookie's header and then that of `name.sig`, whose value is
      the signature of `name=value`. */
  lemma CheckedAppends(headers: seq<string>, d: CookieData, signed: bool, keys: bool, now: int,
                       utc: int -> string, sign: string -> string)
    requires SetChecked(headers, d, signed, keys, now, utc, sign).Ok?
    ensures var hs := SetChecked(headers, d, signed, keys, now, utc, sign).value;
      if !signed then |hs| >= 1 && hs[|hs| - 1] == SetCookieHeader(Refreshed(d, now), utc)
      else
        && |hs| >= 2 && hs[|hs| - 2] == SetCookieHeader(Refreshed(d, now), utc)
        && StartsWith(hs[|hs| - 1], d.name + ".sig" + "=" + sign(d.name + "=" + d.value))
  {
    if signed {
      SignedAppends(Pushed(headers, d, now, utc), Refreshed(d, now), now, utc, sign);
    }
  }

  lemma SignedAppends(first: seq<string>, d1: CookieData, now: int, utc: int -> string, sign: string -> string)
    requires first != [] && first[|first| - 1] == SetCookieHeader(d1, utc)
    ensures var hs := Pushed(first, Signature(d1, sign), now, utc);
      && |hs| >= 2 && hs[|hs| - 2] == SetCookieHeader(d1, utc)
      && StartsWith(hs[|hs| - 1], d1.name + ".sig" + "=" + sign(d1.name + "=" + d1.value))
  {
    var h1 := SetCookieHeader(d1, utc);
    var base := first[..|first| - 1];
    assert first == base + [h1];
    var s := Signature(d1, sign);
    SignatureSpares(d1, utc);
    KeepSnoc(base, h1, s.name + "=");
    var kept := if s.overwrite then Keep(first, s.name + "=") else first;
    assert kept[|kept| - 1] == h1;
    var s1 := Refreshed(s, now);
    StartsWithConcat(Pair(s1), AttrText(s1, utc));
  }

  /** On success `set` appends the cookie's header last, or, when it signs,
      the cookie's header and then that of `name.sig`, whose value is the
      signature of `name=value`. */
  lemma SetAppends(opts: CookiesOptions, requestSecure: bool, existing: Option<string>, name: string,
                   value: Option<string>, a: Attributes, now: int, utc: int -> string, sign: string -> string)
    requires SetOutcome(opts, requestSecure, existing, name, value, a, now, utc, sign).Ok?
    ensures var hs := SetOutcome(opts, requestSecure, existing, name, value, a, now, utc, sign).value;
      var d := Refreshed(SetCookieData(name, value, a, EffectiveSecure(opts, requestSecure)), now);
      if !Signed(opts, a) then |hs| >= 1 && hs[|hs| - 1] == SetCookieHeader(d, utc)
      else
        && |hs| >= 2 && hs[|hs| - 2] == SetCookieHeader(d, utc)
        && StartsWith(hs[|hs| - 1], name + ".sig" + "=" + sign(name + "=" + value.GetOr("")))
  {
    var headers := if existing.Some? then [existing.value] else [];
    var d := SetCookieData(name, value, a, EffectiveSecure(opts, requestSecure));
    CheckedAppends(headers, d, Signed(opts, a), opts.keys, now, utc, sign);
  }

  /** `delete` writes the cookie with an empty value that expires at the
      epoch, whatever `maxAge` was given. */
  lemma DeleteExpires(name: string, a: Attributes, secure: bool, now: int, utc: int -> string)
    ensures var d := Refreshed(SetCookieData(name, None, a, secure), now);
      && Pair(d) == name + "=" && d.expires == Some(0) && d.maxAge == None
      && Piece(d, ExpiresAttr, utc) == "; expires=" + utc(0)
  {
  }
}
