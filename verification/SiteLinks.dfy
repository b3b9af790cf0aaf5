/** Where a reference leads: scheme and authority after resolving it against a base, as in
    sections 4.2 and 5.2 of RFC 3986. */
module SiteLinks {
  import opened JsText

  const COLON: CodeUnit := 0x3A
  const SOLIDUS: CodeUnit := 0x2F
  const QUESTION: CodeUnit := 0x3F
  const NUMBER_SIGN: CodeUnit := 0x23

  datatype Origin = Origin(scheme: JsString, authority: JsString)

  predicate IsLetter(c: CodeUnit) { 0x41 <= c <= 0x5A || 0x61 <= c <= 0x7A }

  /** What a scheme may hold after its first letter. */
  predicate IsSchemeUnit(c: CodeUnit) {
    IsLetter(c) || 0x30 <= c <= 0x39 || c == 0x2B || c == 0x2D || c == 0x2E
  }

  /** The length of the scheme in front of a colon; none if the reference has no scheme. */
  function SchemeLength(ref: JsString, i: nat): nat
    requires i <= |ref|
    decreases |ref| - i
  {
    if i == |ref| then 0
    else if i > 0 && ref[i] == COLON then i
    else if IsLetter(ref[i]) || (i > 0 && IsSchemeUnit(ref[i])) then SchemeLength(ref, i + 1)
    else 0
  }

  /** Up to the path, the query or the fragment. */
  function AuthorityOf(s: JsString): JsString {
    if s == [] || s[0] == SOLIDUS || s[0] == QUESTION || s[0] == NUMBER_SIGN then []
    else [s[0]] + AuthorityOf(s[1..])
  }

  predicate StartsAuthority(s: JsString) {
    |s| >= 2 && s[0] == SOLIDUS && s[1] == SOLIDUS
  }

  /** The scheme and the authority the reference leads to. */
  function Leads(ref: JsString, base: Origin): Origin {
    var n := SchemeLength(ref, 0);
    if 0 < n < |ref| then
      var rest := ref[n + 1..];
      Origin(ref[..n], if StartsAuthority(rest) then AuthorityOf(rest[2..]) else [])
    else if StartsAuthority(ref) then Origin(base.scheme, AuthorityOf(ref[2..]))
    else base
  }

  /** An absolute path that leads to the site it is found on, whichever that is. */
  ghost predicate StaysOnSite(ref: JsString) {
    ref != [] && ref[0] == SOLIDUS && forall base :: Leads(ref, base) == base
  }

  /** Two slashes leave some site. */
  lemma TwoSlashesLeave(ref: JsString)
    requires StartsAuthority(ref)
    ensures !StaysOnSite(ref)
  {
    var authority := AuthorityOf(ref[2..]);
    var other := Origin([], authority + [SOLIDUS]);
    assert Leads(ref, other).authority == authority != other.authority;
  }

  lemma OneSlashStays(ref: JsString)
    requires ref != [] && ref[0] == SOLIDUS && !StartsAuthority(ref)
    ensures StaysOnSite(ref)
  {
    assert SchemeLength(ref, 0) == 0;
  }
}
