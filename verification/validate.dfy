/**
 * Credential validation: the e-mail shape check and the password strength
 * rule of the validation service.
 *
 * The e-mail check in the service is the regular expression
 *   ^[a-zA-Z0-9._%+-]+@([a-zA-Z0-9-]+\.)+[a-zA-Z]{2,}$
 * Here it is a hand-written recogniser (`IsEmailShaped`) built from
 * `Split`, proved to accept exactly the language of that expression
 * (`MatchesPattern`), which is transcribed part by part.
 *
 * Character classification for passwords is restricted to ASCII.
 */
module Validate {
  import opened Wrappers
  import opened Errors
  import opened Strings

  predicate IsLetter(c: char) { 'a' <= c <= 'z' || 'A' <= c <= 'Z' }
  predicate IsDigit(c: char) { '0' <= c <= '9' }
  predicate IsUpper(c: char) { 'A' <= c <= 'Z' }
  predicate IsLower(c: char) { 'a' <= c <= 'z' }

  /** `[a-zA-Z0-9._%+-]` */
  predicate IsLocalChar(c: char) { IsLetter(c) || IsDigit(c) || c in "._%+-" }

  /** `[a-zA-Z0-9-]` */
  predicate IsLabelChar(c: char) { IsLetter(c) || IsDigit(c) || c == '-' }

  /** `[a-zA-Z0-9._%+-]+` */
  predicate IsLocalPart(s: string) { |s| >= 1 && forall k :: 0 <= k < |s| ==> IsLocalChar(s[k]) }

  /** `[a-zA-Z0-9-]+` */
  predicate IsLabel(s: string) { |s| >= 1 && forall k :: 0 <= k < |s| ==> IsLabelChar(s[k]) }

  /** `[a-zA-Z]{2,}` */
  predicate IsTopLabel(s: string) { |s| >= 2 && forall k :: 0 <= k < |s| ==> IsLetter(s[k]) }

  // ---------------------------------------------------------------------
  // The recogniser

  /** The domain: at least two dot-separated pieces, the last a top label, the others labels. */
  predicate IsDomain(d: string)
  {
    var pieces := Split(d, '.');
    |pieces| >= 2 && IsTopLabel(pieces[|pieces| - 1])
    && forall k :: 0 <= k < |pieces| - 1 ==> IsLabel(pieces[k])
  }

  /** Exactly one `@`, a local part before it and a domain after it. */
  predicate IsEmailShaped(s: string)
  {
    var halves := Split(s, '@');
    |halves| == 2 && IsLocalPart(halves[0]) && IsDomain(halves[1])
  }

  /** `IsValidEmail`: nil when the address has the expected shape, `ErrBadEmail` otherwise. */
  function IsValidEmail(email: string): (r: Outcome<Error>)
    ensures r == Pass || r == Fail(BadEmail)
    ensures r == Pass ==> Count(email, '@') == 1
  {
    if IsEmailShaped(email) then
      SplitCount(email, '@');
      Pass
    else Fail(BadEmail)
  }

  // ---------------------------------------------------------------------
  // The regular expression, transcribed

  /** `([a-zA-Z0-9-]+\.)+` with the labels given: each label followed by a dot. */
  function Dotted(labels: seq<string>): string
  {
    if |labels| == 0 then "" else labels[0] + "." + Dotted(labels[1..])
  }

  /** `s` is `local@label1.label2. ... .top`, with the parts as the pattern demands. */
  ghost predicate MatchesWith(s: string, local: string, labels: seq<string>, top: string)
  {
    && s == local + "@" + Dotted(labels) + top
    && IsLocalPart(local)
    && |labels| >= 1
    && (forall k :: 0 <= k < |labels| ==> IsLabel(labels[k]))
    && IsTopLabel(top)
  }

  /** `s` is in the language of the anchored pattern. */
  ghost predicate MatchesPattern(s: string)
  {
    exists local: string, labels: seq<string>, top: string :: MatchesWith(s, local, labels, top)
  }

  lemma {:induction false} JoinIsDotted(pieces: seq<string>)
    requires |pieces| >= 1
    ensures Join(pieces, '.') == Dotted(pieces[..|pieces| - 1]) + pieces[|pieces| - 1]
    decreases |pieces|
  {
    if |pieces| > 1 {
      var n := |pieces|;
      JoinIsDotted(pieces[1..]);
      assert pieces[1..][..n - 2] == pieces[..n - 1][1..];
      assert pieces[1..][n - 2] == pieces[n - 1];
      assert Dotted(pieces[..n - 1]) == pieces[0] + "." + Dotted(pieces[..n - 1][1..]);
    }
  }

  lemma {:induction false} DottedChars(labels: seq<string>)
    requires forall k :: 0 <= k < |labels| ==> IsLabel(labels[k])
    ensures forall i :: 0 <= i < |Dotted(labels)| ==> IsLabelChar(Dotted(labels)[i]) || Dotted(labels)[i] == '.'
    decreases |labels|
  {
    if |labels| > 0 {
      DottedChars(labels[1..]);
      var d := Dotted(labels);
      var l, rest := labels[0], Dotted(labels[1..]);
      assert d == l + "." + rest;
      forall i | 0 <= i < |d| ensures IsLabelChar(d[i]) || d[i] == '.' {
        if i < |l| {
          assert d[i] == l[i];
        } else if i > |l| {
          assert d[i] == rest[i - |l| - 1];
        }
      }
    }
  }

  lemma HalvesJoin(s: string)
    requires IsEmailShaped(s)
    ensures s == Split(s, '@')[0] + "@" + Split(s, '@')[1]
  {
    JoinSplit(s, '@');
  }

  lemma DomainIsDotted(d: string)
    requires IsDomain(d)
    ensures d == Dotted(Split(d, '.')[..|Split(d, '.')| - 1]) + Split(d, '.')[|Split(d, '.')| - 1]
  {
    JoinSplit(d, '.');
    JoinIsDotted(Split(d, '.'));
  }

  /** Every string the recogniser accepts is matched by the pattern. */
  lemma RecogniserSound(s: string)
    requires IsEmailShaped(s)
    ensures MatchesPattern(s)
  {
    HalvesJoin(s);
    var local, d := Split(s, '@')[0], Split(s, '@')[1];
    DomainIsDotted(d);
    var pieces := Split(d, '.');
    var labels, top := pieces[..|pieces| - 1], pieces[|pieces| - 1];
    assert d == Dotted(labels) + top;
    assert s == local + "@" + d;
    assert s == local + "@" + Dotted(labels) + top;
    assert IsLocalPart(local);
    assert IsTopLabel(top);
    assert forall k :: 0 <= k < |labels| ==> IsLabel(labels[k]);
    assert MatchesWith(s, local, labels, top);
  }

  lemma NoDotInPieces(labels: seq<string>, top: string)
    requires forall k :: 0 <= k < |labels| ==> IsLabel(labels[k])
    requires IsTopLabel(top)
    ensures forall k :: 0 <= k < |labels + [top]| ==> '.' !in (labels + [top])[k]
  {
    forall k | 0 <= k < |labels + [top]| ensures '.' !in (labels + [top])[k] {
      var p := (labels + [top])[k];
      if k < |labels| {
        assert p == labels[k];
        assert forall i :: 0 <= i < |p| ==> IsLabelChar(p[i]);
      } else {
        assert p == top;
        assert forall i :: 0 <= i < |p| ==> IsLetter(p[i]);
      }
    }
  }

  lemma NoAtInLocal(local: string)
    requires IsLocalPart(local)
    ensures '@' !in local
  {
    assert forall i :: 0 <= i < |local| ==> IsLocalChar(local[i]);
  }

  lemma NoAtInDomain(labels: seq<string>, top: string)
    requires forall k :: 0 <= k < |labels| ==> IsLabel(labels[k])
    requires IsTopLabel(top)
    ensures '@' !in Dotted(labels) + top
  {
    DottedChars(labels);
    var a := Dotted(labels);
    var d := a + top;
    forall i | 0 <= i < |d| ensures d[i] != '@' {
      if i < |a| {
        assert d[i] == a[i];
      } else {
        assert d[i] == top[i - |a|];
      }
    }
  }

  lemma DomainOfPieces(labels: seq<string>, top: string)
    requires |labels| >= 1
    requires forall k :: 0 <= k < |labels| ==> IsLabel(labels[k])
    requires IsTopLabel(top)
    ensures IsDomain(Dotted(labels) + top)
  {
    var pieces := labels + [top];
    assert pieces[..|pieces| - 1] == labels;
    JoinIsDotted(pieces);
    NoDotInPieces(labels, top);
    SplitJoin(pieces, '.');
  }

  lemma ShapedOfParts(local: string, d: string)
    requires IsLocalPart(local) && IsDomain(d) && '@' !in d
    ensures IsEmailShaped(local + "@" + d)
  {
    NoAtInLocal(local);
    assert local + "@" + d == Join([local, d], '@');
    SplitJoin([local, d], '@');
  }

  /** Every string the pattern matches is accepted by the recogniser. */
  lemma RecogniserComplete(s: string, local: string, labels: seq<string>, top: string)
    requires MatchesWith(s, local, labels, top)
    ensures IsEmailShaped(s)
  {
    var d := Dotted(labels) + top;
    DomainOfPieces(labels, top);
    NoAtInDomain(labels, top);
    assert s == local + "@" + d;
    ShapedOfParts(local, d);
  }

  /** A domain neither starts nor ends with a dot, and contains one. */
  lemma DomainEnds(d: string)
    requires IsDomain(d)
    ensures '.' in d && d[0] != '.' && d[|d| - 1] != '.'
  {
    DomainIsDotted(d);
    var pieces := Split(d, '.');
    var labels, top := pieces[..|pieces| - 1], pieces[|pieces| - 1];
    DottedEnds(labels, top);
  }

  lemma DottedEnds(labels: seq<string>, top: string)
    requires |labels| >= 1 && IsLabel(labels[0]) && IsTopLabel(top)
    ensures var d := Dotted(labels) + top; '.' in d && d[0] != '.' && d[|d| - 1] != '.'
  {
    var first := labels[0];
    var a := Dotted(labels);
    assert a == first + "." + Dotted(labels[1..]);
    var d := a + top;
    assert d[0] == first[0];
    assert d[|first|] == '.';
    LastOfAppend(a, top);
  }

  lemma LastOfAppend(a: string, b: string)
    requires |b| > 0
    ensures (a + b)[|a + b| - 1] == b[|b| - 1]
  {
  }

  /** The recogniser accepts exactly the strings the anchored pattern matches. */
  lemma EmailRecogniserMatchesPattern(s: string)
    ensures IsValidEmail(s) == Pass <==> MatchesPattern(s)
  {
    if IsEmailShaped(s) {
      RecogniserSound(s);
    }
    if MatchesPattern(s) {
      var local, labels, top :| MatchesWith(s, local, labels, top);
      RecogniserComplete(s, local, labels, top);
    }
  }

  /**
   * The domain of an accepted address (the text after its single `@`)
   * contains a dot and neither starts nor ends with one.
   */
  lemma AcceptedDomainShape(s: string)
    requires IsValidEmail(s) == Pass
    ensures var d := Split(s, '@')[1]; '.' in d && d[0] != '.' && d[|d| - 1] != '.'
  {
    DomainEnds(Split(s, '@')[1]);
  }

  lemma AcceptsSimpleAddress()
    ensures IsValidEmail("a@b.com") == Pass
  {
    assert MatchesWith("a@b.com", "a", ["b"], "com");
    EmailRecogniserMatchesPattern("a@b.com");
  }

  lemma RejectsAddressWithoutAt()
    ensures IsValidEmail("not-an-email") == Fail(BadEmail)
  {
    var s := "not-an-email";
    assert '@' !in s;
    assert Split(s, '@') == [s];
  }

  // ---------------------------------------------------------------------
  // Password strength

  /** `p` contains a rune of class `cls`. */
  ghost predicate Has(p: string, cls: char -> bool) { exists k :: 0 <= k < |p| && cls(p[k]) }

  /**
   * The strength rule: at least `minPasswordSize` bytes of UTF-8 and at
   * least one upper-case letter, one lower-case letter and one digit.
   */
  ghost predicate IsStrong(p: string, minPasswordSize: int)
  {
    Utf8Len(p) >= minPasswordSize && Has(p, IsUpper) && Has(p, IsLower) && Has(p, IsDigit)
  }

  /**
   * `IsStrongPassword`: rejects by byte length first, then scans the runes,
   * setting one flag per class, and demands all three flags.
   */
  method IsStrongPassword(minPasswordSize: int, password: string) returns (r: Outcome<Error>)
    ensures r == (if IsStrong(password, minPasswordSize) then Pass else Fail(BadPassword))
  {
    if Utf8Len(password) < minPasswordSize {
      return Fail(BadPassword);
    }
    var hasUpper, hasLower, hasDigit := false, false, false;
    for i := 0 to |password|
      invariant hasUpper <==> exists k :: 0 <= k < i && IsUpper(password[k])
      invariant hasLower <==> exists k :: 0 <= k < i && IsLower(password[k])
      invariant hasDigit <==> exists k :: 0 <= k < i && IsDigit(password[k])
    {
      var c := password[i];
      if IsUpper(c) {
        hasUpper := true;
      } else if IsLower(c) {
        hasLower := true;
      } else if IsDigit(c) {
        hasDigit := true;
      }
    }
    if hasUpper && hasLower && hasDigit {
      return Pass;
    }
    return Fail(BadPassword);
  }

  /** Inserting a rune outside class `cls` neither creates nor removes a rune of that class. */
  lemma InsertKeepsClass(p: string, i: nat, c: char, cls: char -> bool)
    requires i <= |p| && !cls(c)
    ensures Has(p[..i] + [c] + p[i..], cls) == Has(p, cls)
  {
    var q := p[..i] + [c] + p[i..];
    if Has(p, cls) {
      var k :| 0 <= k < |p| && cls(p[k]);
      var m := if k < i then k else k + 1;
      assert q[m] == p[k];
    }
    if Has(q, cls) {
      var k :| 0 <= k < |q| && cls(q[k]);
      assert k != i;
      var m := if k < i then k else k - 1;
      assert q[k] == p[m];
    }
  }

  /**
   * Once the length suffices, a character that is neither a letter nor a
   * digit neither helps nor hurts: inserting it anywhere keeps the verdict.
   */
  lemma OtherCharacterIsNeutral(p: string, i: nat, c: char, minPasswordSize: int)
    requires i <= |p|
    requires !IsUpper(c) && !IsLower(c) && !IsDigit(c)
    requires Utf8Len(p) >= minPasswordSize
    ensures IsStrong(p[..i] + [c] + p[i..], minPasswordSize) == IsStrong(p, minPasswordSize)
  {
    var q := p[..i] + [c] + p[i..];
    assert p == p[..i] + p[i..];
    Utf8LenAppend(p[..i] + [c], p[i..]);
    Utf8LenAppend(p[..i], [c]);
    Utf8LenAppend(p[..i], p[i..]);
    InsertKeepsClass(p, i, c, IsUpper);
    InsertKeepsClass(p, i, c, IsLower);
    InsertKeepsClass(p, i, c, IsDigit);
  }

  /** With a minimum of 8: too short, no upper-case letter, and a strong password. */
  lemma PasswordExamples()
    ensures !IsStrong("short1", 8)
    ensures !IsStrong("alllowercase1", 8)
    ensures IsStrong("Valid123", 8)
  {
    var v := "Valid123";
    assert IsUpper(v[0]) && IsLower(v[1]) && IsDigit(v[5]);
    var w := "alllowercase1";
    assert forall k :: 0 <= k < |w| ==> !IsUpper(w[k]);
  }

  /** Length is counted in bytes: seven runes, one of them two bytes long, meet a minimum of 8. */
  lemma ByteLengthNotRuneCount()
    ensures |"Abcde1é"| == 7
    ensures IsStrong("Abcde1é", 8)
  {
    var p := "Abcde1é";
    assert IsUpper(p[0]) && IsLower(p[1]) && IsDigit(p[5]);
    assert Utf8Len(p) == 8 by {
      assert Utf8Len(p[6..]) == 2;
      assert Utf8Len(p) == 6 + Utf8Len(p[6..]);
    }
  }
}
