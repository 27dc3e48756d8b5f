/**
 * The e-mail check of the register form: `new RegExp(P).test(email)` for the
 * one fixed pattern P the form builds,
 *
 *   [L]+(?:.[L]+)*@(?:[a-z0-9](?:[a-z0-9-]*[a-z0-9])?.)+[a-z0-9](?:[a-z0-9-]*[a-z0-9])?
 *
 * where L is the class `a-z0-9!#$%&'*+/=?^_`{|}~-`. The pattern is a loose take
 * on the `addr-spec` of section 3.4.1 of RFC 5322, but this module follows the
 * pattern as the form writes it:
 *   - it is built from a string literal in which `.` is not escaped, so each
 *     `.` matches any code unit except a line terminator (no `s` flag);
 *   - it has no `^` or `$`, so `test` succeeds when SOME substring matches;
 *   - its classes hold lower-case letters only (no `i` flag);
 *   - without the `u` flag it runs over UTF-16 code units.
 * The language of P is written out piece by piece below; `Test` is the
 * unanchored search. `TestCharacterized` then reduces `Test` to a local
 * condition around one `@`.
 */
module EmailPattern {
  import opened JsString

  /** `[a-z0-9]` */
  predicate IsAlnum(u: CodeUnit) {
    ('a' as int <= u <= 'z' as int) || ('0' as int <= u <= '9' as int)
  }

  /** `[a-z0-9-]` */
  predicate IsLabelChar(u: CodeUnit) {
    IsAlnum(u) || u == '-' as int
  }

  /** The punctuation allowed in the local part, besides `[a-z0-9]`. */
  const LocalSpecials: string := "!#$%&'*+/=?^_`{|}~-"

  /** `[a-z0-9!#$%&'*+/=?^_`{|}~-]` */
  predicate IsLocalChar(u: CodeUnit) {
    IsAlnum(u) || (u < 0xD800 && u as char in LocalSpecials)
  }

  /** `.` without the `s` flag: anything but \n, \r, U+2028 and U+2029. */
  predicate IsAnyChar(u: CodeUnit) {
    u != 0x0A && u != 0x0D && u != 0x2028 && u != 0x2029
  }

  const At: CodeUnit := '@' as int

  /** `[L]+` */
  predicate LocalRun(t: seq<CodeUnit>) {
    |t| > 0 && forall q :: 0 <= q < |t| ==> IsLocalChar(t[q])
  }

  /** `[L]+(?:.[L]+)*`: a run, or a local part, one `.` and a run. */
  predicate LocalPart(t: seq<CodeUnit>)
    decreases |t|, 1
  {
    LocalRun(t) || exists i | 0 < i < |t| - 1 :: LocalSplit(t, i)
  }

  /** `t` is a local part, then the `.` at `t[i]`, then a run. */
  predicate LocalSplit(t: seq<CodeUnit>, i: int)
    decreases |t|, 0
  {
    0 < i < |t| - 1 && LocalPart(t[..i]) && IsAnyChar(t[i]) && LocalRun(t[i + 1..])
  }

  /**
   * `[a-z0-9](?:[a-z0-9-]*[a-z0-9])?`: one alphanumeric, or alphanumerics at
   * both ends with `[a-z0-9-]` between them.
   */
  predicate Label(t: seq<CodeUnit>) {
    |t| > 0 && IsAlnum(t[0]) && IsAlnum(t[|t| - 1]) &&
    forall q :: 0 < q < |t| - 1 ==> IsLabelChar(t[q])
  }

  /** `(?:Label.)+`: a label and one `.`, then possibly more of the same. */
  predicate LabelGroups(t: seq<CodeUnit>)
    decreases |t|, 1
  {
    exists m | 0 < m < |t| :: GroupSplit(t, m)
  }

  /** `t[..m]` is a label, `t[m]` its `.`, and the rest is empty or more groups. */
  predicate GroupSplit(t: seq<CodeUnit>, m: int)
    decreases |t|, 0
  {
    0 < m < |t| && Label(t[..m]) && IsAnyChar(t[m]) && (m + 1 == |t| || LabelGroups(t[m + 1..]))
  }

  /** `(?:Label.)+Label` */
  predicate Domain(t: seq<CodeUnit>) {
    exists i | 0 < i < |t| :: DomainSplit(t, i)
  }

  /** `t[..i]` is a run of label groups and `t[i..]` the final label. */
  predicate DomainSplit(t: seq<CodeUnit>, i: int) {
    0 < i < |t| && LabelGroups(t[..i]) && Label(t[i..])
  }

  /** The whole pattern: `t` is one match of P from end to end. */
  predicate Address(t: seq<CodeUnit>) {
    exists k | 0 < k < |t| - 1 :: AddressSplit(t, k)
  }

  /** `t[..k]` is the local part, `t[k]` the `@`, `t[k+1..]` the domain. */
  predicate AddressSplit(t: seq<CodeUnit>, k: int) {
    0 < k < |t| - 1 && LocalPart(t[..k]) && t[k] == At && Domain(t[k + 1..])
  }

  /** `RegExp.prototype.test`: some substring of `s` is a match of P. */
  predicate Test(s: seq<CodeUnit>) {
    exists i, j | 0 <= i <= j <= |s| :: MatchAt(s, i, j)
  }

  /** `s[i..j]` is a match of P. */
  predicate MatchAt(s: seq<CodeUnit>, i: int, j: int) {
    0 <= i <= j <= |s| && Address(s[i..j])
  }

  /** The check the form applies to the e-mail field's value. */
  predicate Accepts(email: string) {
    Test(Utf16(email))
  }

  /**
   * Some prefix of `s[p..]` is a domain: a label, one `.`, then the
   * alphanumeric that starts the next label.
   */
  predicate DomainStartsAt(s: seq<CodeUnit>, p: nat) {
    exists m | p < m < |s| - 1 :: FirstGroupEnds(s, p, m)
  }

  /** `s[p..m]` is a label, `s[m]` its `.`, and `s[m+1]` starts the next label. */
  predicate FirstGroupEnds(s: seq<CodeUnit>, p: nat, m: int) {
    p < m < |s| - 1 && Label(s[p..m]) && IsAnyChar(s[m]) && IsAlnum(s[m + 1])
  }

  /** `s[k]` is an `@` with a local-part character before it and a domain after it. */
  predicate AnchorAt(s: seq<CodeUnit>, k: nat) {
    0 < k < |s| && s[k] == At && IsLocalChar(s[k - 1]) && DomainStartsAt(s, k + 1)
  }

  /** A local part ends in a local-part character. */
  lemma LocalPartEnds(t: seq<CodeUnit>)
    requires LocalPart(t)
    ensures |t| > 0 && IsLocalChar(t[|t| - 1])
  {
    if !LocalRun(t) {
      var i :| 0 < i < |t| - 1 && LocalSplit(t, i);
      assert t[i + 1..][|t| - i - 2] == t[|t| - 1];
    }
  }

  /** A run of label groups starts with an alphanumeric. */
  lemma LabelGroupsStart(t: seq<CodeUnit>)
    requires LabelGroups(t)
    ensures |t| > 0 && IsAlnum(t[0])
  {
    var m :| 0 < m < |t| && GroupSplit(t, m);
    assert t[..m][0] == t[0];
  }

  /** A label, one `.`, and one alphanumeric form a domain. */
  lemma ShortestDomain(w: seq<CodeUnit>)
    requires |w| > 2 && Label(w[..|w| - 2]) && IsAnyChar(w[|w| - 2]) && IsAlnum(w[|w| - 1])
    ensures Domain(w)
  {
    var n := |w| - 1;
    assert w[..n][..n - 1] == w[..n - 1];
    assert GroupSplit(w[..n], n - 1);
    assert DomainSplit(w, n);
  }

  /** A local-part character, `@` and a domain form a match of the whole pattern. */
  lemma ShortestAddress(t: seq<CodeUnit>)
    requires |t| > 2 && IsLocalChar(t[0]) && t[1] == At && Domain(t[2..])
    ensures Address(t)
  {
    assert LocalRun(t[..1]);
    assert AddressSplit(t, 1);
  }

  /**
   * The witness of an anchor is itself a match of the whole pattern: the
   * substring from the local-part character before the `@` to the end of the
   * domain's second label, which ends at `j`.
   */
  lemma AnchorIsMatch(s: seq<CodeUnit>, k: nat) returns (j: nat)
    requires AnchorAt(s, k)
    ensures k + 3 < j <= |s| && MatchAt(s, k - 1, j)
    ensures Test(s)
  {
    var m :| k + 1 < m < |s| - 1 && FirstGroupEnds(s, k + 1, m);
    var t := s[k - 1..m + 2];
    var w := t[2..];
    assert w[..|w| - 2] == s[k + 1..m];
    ShortestDomain(w);
    ShortestAddress(t);
    j := m + 2;
    assert MatchAt(s, k - 1, j);
  }

  /** The code unit right after the first label group of a domain starts a label. */
  lemma DomainSecondLabel(w: seq<CodeUnit>) returns (m: nat)
    requires Domain(w)
    ensures m + 1 < |w| && Label(w[..m]) && IsAnyChar(w[m]) && IsAlnum(w[m + 1])
  {
    var n :| 0 < n < |w| && DomainSplit(w, n);
    var g := w[..n];
    assert LabelGroups(g);
    m :| 0 < m < |g| && GroupSplit(g, m);
    assert g[..m] == w[..m];
    if m + 1 == |g| {
      assert w[n..][0] == w[m + 1];
    } else {
      LabelGroupsStart(g[m + 1..]);
      assert g[m + 1..][0] == w[m + 1];
    }
  }

  /** The `@` of a match has a local-part character before it and a domain after it. */
  lemma AddressAnchor(t: seq<CodeUnit>) returns (k: nat)
    requires Address(t)
    ensures 0 < k < |t| - 1 && t[k] == At && IsLocalChar(t[k - 1]) && Domain(t[k + 1..])
  {
    k :| 0 < k < |t| - 1 && AddressSplit(t, k);
    LocalPartEnds(t[..k]);
    assert t[..k][k - 1] == t[k - 1];
  }

  /** The `@` of a match is an anchor of the match itself. */
  lemma AnchorInMatch(t: seq<CodeUnit>) returns (k: nat)
    requires Address(t)
    ensures 0 < k < |t| && AnchorAt(t, k)
  {
    k := AddressAnchor(t);
    var w := t[k + 1..];
    var m := DomainSecondLabel(w);
    assert w[..m] == t[k + 1..k + 1 + m];
    assert FirstGroupEnds(t, k + 1, k + 1 + m);
  }

  /** An anchor of a substring is an anchor of the whole string. */
  lemma AnchorInContext(s: seq<CodeUnit>, i: nat, j: nat, k: nat)
    requires i <= j <= |s| && AnchorAt(s[i..j], k)
    ensures AnchorAt(s, i + k)
  {
    var t := s[i..j];
    var m :| k + 1 < m < |t| - 1 && FirstGroupEnds(t, k + 1, m);
    assert |t| == j - i;
    assert forall n :: k + 1 <= n < m ==> t[n] == s[i + n];
    assert t[k + 1..m] == s[i + k + 1..i + m];
    assert FirstGroupEnds(s, i + k + 1, i + m);
  }

  /**
   * A match anywhere in `s` shows an anchor at its `@`, an anchor both of the
   * matched substring (at `k`) and of `s` (at `i + k`).
   */
  lemma MatchHasAnchor(s: seq<CodeUnit>, i: nat, j: nat) returns (k: nat)
    requires MatchAt(s, i, j)
    ensures 0 < k < j - i && AnchorAt(s[i..j], k)
    ensures AnchorAt(s, i + k)
  {
    k := AnchorInMatch(s[i..j]);
    AnchorInContext(s, i, j, k);
  }

  /**
   * The unanchored test succeeds exactly when some `@` has a local-part
   * character right before it and, right after it, a label, one more code
   * unit that is not a line terminator, and an alphanumeric.
   */
  lemma TestCharacterized(s: seq<CodeUnit>)
    ensures Test(s) <==> exists k :: AnchorAt(s, k)
  {
    if Test(s) {
      var i, j :| 0 <= i <= j <= |s| && MatchAt(s, i, j);
      var k := MatchHasAnchor(s, i, j);
    }
    if exists k :: AnchorAt(s, k) {
      var k :| AnchorAt(s, k);
      var j := AnchorIsMatch(s, k);
    }
  }

  /** Without an `@` the test fails. */
  lemma NoAtSignRejected(email: string)
    requires '@' !in email
    ensures !Accepts(email)
  {
    Utf16ContainsBmpChar(email, '@');
    TestCharacterized(Utf16(email));
  }

  /**
   * What an accepted value contains: an `@` with a local-part character just
   * before it and at least three code units after it, the first of them an
   * alphanumeric and a later one, two or more further on, an alphanumeric.
   * Nothing is required of the rest of the string.
   */
  lemma AcceptedShape(s: seq<CodeUnit>) returns (k: nat)
    requires Test(s)
    ensures 0 < k && k + 3 < |s| && s[k] == At && IsLocalChar(s[k - 1]) && IsAlnum(s[k + 1])
    ensures exists m :: k + 3 <= m < |s| && IsAlnum(s[m])
  {
    TestCharacterized(s);
    k :| AnchorAt(s, k);
    var m :| k + 1 < m < |s| - 1 && FirstGroupEnds(s, k + 1, m);
    assert s[k + 1..m][0] == s[k + 1];
    assert IsAlnum(s[m + 1]);
  }

  /**
   * Five code units in a row suffice: a local-part character, `@`, an
   * alphanumeric, anything but a line terminator, and an alphanumeric.
   */
  lemma ShortestMatch(s: seq<CodeUnit>, k: nat)
    requires 0 < k && k + 3 < |s|
    requires IsLocalChar(s[k - 1]) && s[k] == At && IsAlnum(s[k + 1]) && IsAnyChar(s[k + 2]) && IsAlnum(s[k + 3])
    ensures Test(s)
  {
    assert s[k + 1..k + 2] == [s[k + 1]];
    assert FirstGroupEnds(s, k + 1, k + 2);
    var j := AnchorIsMatch(s, k);
  }

  /** The test is unanchored: text around an accepted value does not matter. */
  lemma SurroundingTextIgnored(s: seq<CodeUnit>, before: seq<CodeUnit>, after: seq<CodeUnit>)
    requires Test(s)
    ensures Test(before + s + after)
  {
    var i, j :| 0 <= i <= j <= |s| && MatchAt(s, i, j);
    var whole := before + s + after;
    assert whole[|before| + i..|before| + j] == s[i..j];
    assert MatchAt(whole, |before| + i, |before| + j);
  }

  /** A typical address passes. */
  lemma TypicalAddressAccepted(e: string)
    requires e == "user@example.com"
    ensures Accepts(e)
  {
    assert forall i :: 0 <= i < |e| ==> InBmp(e[i]);
    Utf16OfBmp(e);
    var u := Utf16(e);
    assert u[3] == 'r' as int && u[4] == At && u[5] == 'e' as int && u[6] == 'x' as int && u[7] == 'a' as int;
    ShortestMatch(u, 4);
  }

  /** The classes hold lower-case letters only, so the same address in capitals fails. */
  lemma UpperCaseAddressRejected(e: string)
    requires e == "USER@EXAMPLE.COM"
    ensures !Accepts(e)
  {
    assert forall i :: 0 <= i < |e| ==> InBmp(e[i]);
    Utf16OfBmp(e);
    TestCharacterized(Utf16(e));
  }

  /** The unescaped `.` matches any code unit, so a domain needs no dot. */
  lemma DotlessDomainAccepted(e: string)
    requires e == "a@bcd"
    ensures Accepts(e)
  {
    var u := Utf16(e);
    assert |u| == 5 && u[0] == 'a' as int && u[1] == At && u[2] == 'b' as int &&
           u[3] == 'c' as int && u[4] == 'd' as int by {
      Utf16OfBmp(e);
    }
    ShortestMatch(u, 1);
  }

  /** The `.` does not match a line terminator. */
  lemma LineBreakInDomainRejected(e: string)
    requires e == "a@b\nc"
    ensures !Accepts(e)
  {
    var u := Utf16(e);
    assert |u| == |e| && forall i :: 0 <= i < |e| ==> u[i] == e[i] as int by {
      Utf16OfBmp(e);
    }
    TestCharacterized(u);
  }
}
