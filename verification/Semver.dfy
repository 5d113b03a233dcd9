/**
 * Exact provider versions: Semantic Versioning 2.0.0, its precedence (section 11), and the floor that a pinned version
 * has to meet.
 */
module Semver {
  import opened Text
  import opened Order

  // ----- versions -----

  datatype Version = Version(core: seq<string>, pre: Option<seq<string>>, build: Option<seq<string>>)

  predicate IsIdentChar(c: char) { IsDigit(c) || 'A' <= c <= 'Z' || 'a' <= c <= 'z' || c == '-' }

  predicate IsIdent(s: string) { s != "" && forall k :: 0 <= k < |s| ==> IsIdentChar(s[k]) }

  /** Digits without a leading zero. */
  predicate IsNumericIdent(s: string) { IsDigits(s) && (|s| > 1 ==> s[0] != '0') }

  /** An identifier; all digits only without a leading zero. */
  predicate IsPreIdent(s: string) { IsIdent(s) && (IsDigits(s) ==> IsNumericIdent(s)) }

  predicate All(ids: seq<string>, p: string -> bool) { forall k :: 0 <= k < |ids| ==> p(ids[k]) }

  predicate Valid(v: Version) {
    && |v.core| == 3 && All(v.core, IsNumericIdent)
    && (v.pre.Some? ==> v.pre.value != [] && All(v.pre.value, IsPreIdent))
    && (v.build.Some? ==> v.build.value != [] && All(v.build.value, IsIdent))
  }

  function Part(sign: char, ids: Option<seq<string>>): string {
    if ids.None? then "" else [sign] + Join(ids.value, '.')
  }

  function Render(v: Version): string { Join(v.core, '.') + Part('-', v.pre) + Part('+', v.build) }

  // ----- splitting -----

  /** `splitProviderVersion`. */
  function SplitProviderVersion(s: string): (seq<string>, Option<seq<string>>) {
    var body := s[..Find(s, '+')];
    var dash := Find(body, '-');
    (Split(body[..dash], '.'), if dash == |body| then None else Some(Split(body[dash + 1..], '.')))
  }

  function BuildOf(s: string): Option<seq<string>> {
    var plus := Find(s, '+');
    if plus == |s| then None else Some(Split(s[plus + 1..], '.'))
  }

  function Parsed(s: string): Version {
    var (core, pre) := SplitProviderVersion(s);
    Version(core, pre, BuildOf(s))
  }

  /** `isExactProviderVersion` on strings. */
  predicate IsExact(s: string) { Valid(Parsed(s)) }

  lemma {:induction false} JoinFree(ids: seq<string>, c: char)
    requires c != '.' && forall k :: 0 <= k < |ids| ==> c !in ids[k]
    ensures c !in Join(ids, '.')
  {
    if |ids| > 1 { JoinFree(ids[1..], c); }
  }

  lemma PartAfter(a: string, sign: char, ids: Option<seq<string>>)
    ensures a + Part(sign, ids) == if ids.None? then a else a + [sign] + Join(ids.value, '.')
  {
    hide Join;
  }

  /** Text that goes on, if at all, with the character is cut before it. */
  lemma FindPart(a: string, sign: char, ids: Option<seq<string>>)
    requires sign !in a
    ensures Find(a + Part(sign, ids), sign) == |a|
  {
    hide Find, Join, Part;
    PartAfter(a, sign, ids);
    FindIn(a, sign, if ids.None? then "" else Join(ids.value, '.'));
  }

  /** Splitting after the cut gives the identifiers back. */
  lemma SplitPart(a: string, sign: char, ids: Option<seq<string>>)
    requires ids.Some? ==> ids.value != [] && forall k :: 0 <= k < |ids.value| ==> '.' !in ids.value[k]
    ensures var s := a + Part(sign, ids);
            ids == if |a| == |s| then None else Some(Split(s[|a| + 1..], '.'))
  {
    hide Split;
    if ids.Some? {
      var s := a + Part(sign, ids);
      assert s[|a| + 1..] == Join(ids.value, '.');
      SplitOfJoin(ids.value, '.');
    }
  }

  lemma IdentChars(s: string)
    requires IsIdent(s)
    ensures '+' !in s && '.' !in s
  {
  }

  lemma NumericChars(s: string)
    requires IsNumericIdent(s)
    ensures '+' !in s && '.' !in s && '-' !in s
  {
  }

  ghost predicate Free(c: char, ids: seq<string>) { forall k :: 0 <= k < |ids| ==> c !in ids[k] }

  /** No identifier holds a character that separates the parts before it. */
  lemma PartsAreFree(v: Version)
    requires Valid(v)
    ensures Free('+', v.core) && Free('.', v.core) && Free('-', v.core)
    ensures v.pre.Some? ==> Free('+', v.pre.value) && Free('.', v.pre.value)
    ensures v.build.Some? ==> Free('.', v.build.value)
  {
    forall k | 0 <= k < 3 ensures '+' !in v.core[k] && '.' !in v.core[k] && '-' !in v.core[k] {
      NumericChars(v.core[k]);
    }
    if v.pre.Some? {
      forall k | 0 <= k < |v.pre.value| ensures '+' !in v.pre.value[k] && '.' !in v.pre.value[k] {
        IdentChars(v.pre.value[k]);
      }
    }
    if v.build.Some? {
      forall k | 0 <= k < |v.build.value| ensures '.' !in v.build.value[k] { IdentChars(v.build.value[k]); }
    }
  }

  lemma BodyIsFree(v: Version)
    requires Valid(v)
    ensures '+' !in Join(v.core, '.') + Part('-', v.pre) && '-' !in Join(v.core, '.')
  {
    hide Join, IsNumericIdent, IsPreIdent, IsIdent;
    PartsAreFree(v);
    JoinFree(v.core, '+');
    JoinFree(v.core, '-');
    if v.pre.Some? { JoinFree(v.pre.value, '+'); }
  }

  /** What is split out of a version's text are its identifiers; build metadata is left aside. */
  lemma ParsedRender(v: Version)
    requires Valid(v)
    ensures Parsed(Render(v)) == v
  {
    hide Find, Split, IsNumericIdent, IsPreIdent, IsIdent, Join, Part;
    PartsAreFree(v);
    BodyIsFree(v);
    var core := Join(v.core, '.');
    var body := core + Part('-', v.pre);
    var s := Render(v);
    assert s == body + Part('+', v.build);
    FindPart(body, '+', v.build);
    assert s[..|body|] == body;
    SplitPart(body, '+', v.build);
    FindPart(core, '-', v.pre);
    assert body[..|core|] == core;
    SplitPart(core, '-', v.pre);
    SplitOfJoin(v.core, '.');
  }

  /** A text is what comes before the sign, and the part after it. */
  lemma CutPart(s: string, sign: char)
    ensures var k := Find(s, sign);
            s == s[..k] + Part(sign, if k == |s| then None else Some(Split(s[k + 1..], '.')))
  {
    hide Find, Split, Join;
    var k := Find(s, sign);
    if k < |s| { JoinOfSplit(s[k + 1..], '.'); }
  }

  lemma RenderParsed(s: string)
    ensures Render(Parsed(s)) == s
  {
    hide Find, Split, Join, Part;
    CutPart(s, '+');
    var body := s[..Find(s, '+')];
    CutPart(body, '-');
    JoinOfSplit(body[..Find(body, '-')], '.');
  }

  /** The accepted strings are exactly the texts of valid versions. */
  lemma ExactIffRendered(s: string)
    ensures IsExact(s) <==> exists v :: Valid(v) && Render(v) == s
  {
    hide Parsed, Render, Valid;
    RenderParsed(s);
    if v :| Valid(v) && Render(v) == s { ParsedRender(v); }
  }

  // ----- numbers -----

  function Digit(c: char): (d: nat)
    requires IsDigit(c)
    ensures d < 10
  {
    c as int - '0' as int
  }

  predicate Digits(s: string) { forall k :: 0 <= k < |s| ==> IsDigit(s[k]) }

  lemma {:induction false} FrontDigit(s: string)
    requires s != "" && Digits(s)
    ensures DecimalValue(s) == Digit(s[0]) * Pow10(|s| - 1) + DecimalValue(s[1..])
    decreases |s|
  {
    var n := |s|;
    if n == 1 {
      assert s[..0] == "" && s[1..] == "";
    } else {
      var head := s[..n - 1];
      FrontDigit(head);
      assert head[0] == s[0] && head[1..] == s[1..][..n - 2] && s[1..][n - 2] == s[n - 1];
      assert Digit(s[0]) * Pow10(n - 2) * 10 == Digit(s[0]) * Pow10(n - 1);
    }
  }

  lemma {:induction false} ValueBelow(s: string)
    requires Digits(s)
    ensures DecimalValue(s) < Pow10(|s|)
    decreases |s|
  {
    if s != "" {
      assert IsDigit(s[|s| - 1]);
      ValueBelow(s[..|s| - 1]);
    }
  }

  lemma ValueAbove(s: string)
    requires IsNumericIdent(s) && |s| > 1
    ensures DecimalValue(s) >= Pow10(|s| - 1)
  {
    FrontDigit(s);
    Scale(Digit(s[0]), Pow10(|s| - 1));
  }

  lemma Scale(d: nat, p: nat)
    ensures d >= 1 ==> d * p >= p
    ensures d * p + p == (d + 1) * p
  {
    if d >= 1 { assert d * p == (d - 1) * p + p; }
  }

  lemma ScaleLess(d: nat, e: nat, p: nat)
    requires d < e
    ensures d * p + p <= e * p
  {
    assert e * p == d * p + (e - d) * p;
    Scale(e - d, p);
  }

  lemma {:induction false} PowGrows(m: nat, n: nat)
    requires m <= n
    ensures Pow10(m) <= Pow10(n)
  {
    if m < n { PowGrows(m, n - 1); }
  }

  /** Among digit strings of one length the text order is the number order. */
  lemma {:induction false} LessIsLower(a: string, b: string)
    requires |a| == |b| && Digits(a) && Digits(b)
    ensures Less(a, b) <==> DecimalValue(a) < DecimalValue(b)
    ensures a == b <==> DecimalValue(a) == DecimalValue(b)
  {
    if a != "" {
      FrontDigit(a);
      FrontDigit(b);
      ValueBelow(a[1..]);
      ValueBelow(b[1..]);
      var p := Pow10(|a| - 1);
      if a[0] == b[0] {
        LessIsLower(a[1..], b[1..]);
        assert a == [a[0]] + a[1..] && b == [b[0]] + b[1..];
      } else if a[0] < b[0] {
        ScaleLess(Digit(a[0]), Digit(b[0]), p);
      } else {
        ScaleLess(Digit(b[0]), Digit(a[0]), p);
      }
    }
  }

  /** The sign of a comparison. */
  function Sign(less: bool, equal: bool): int { if less then -1 else if equal then 0 else 1 }

  /** `compareNumericIdentifiers`. */
  function CompareNumericIdentifiers(left: string, right: string): int {
    if |left| != |right| then if |left| < |right| then -1 else 1
    else if left == right then 0
    else if Less(left, right) then -1 else 1
  }

  lemma ShorterIsLower(a: string, b: string)
    requires IsNumericIdent(a) && IsNumericIdent(b) && |a| < |b|
    ensures DecimalValue(a) < DecimalValue(b)
  {
    ValueBelow(a);
    ValueAbove(b);
    PowGrows(|a|, |b| - 1);
  }

  /** Length first, then text, is the comparison of the numbers. */
  lemma NumericIsIntegerComparison(a: string, b: string)
    requires IsNumericIdent(a) && IsNumericIdent(b)
    ensures CompareNumericIdentifiers(a, b)
            == Sign(DecimalValue(a) < DecimalValue(b), DecimalValue(a) == DecimalValue(b))
    ensures a == b <==> DecimalValue(a) == DecimalValue(b)
  {
    hide Less, DecimalValue;
    if |a| < |b| {
      ShorterIsLower(a, b);
    } else if |b| < |a| {
      ShorterIsLower(b, a);
    } else {
      LessIsLower(a, b);
    }
  }

  // ----- precedence, as section 11 of Semantic Versioning 2.0.0 states it -----

  /** Section 11.4: numbers by value, letters by ASCII order, numbers below letters. */
  ghost predicate IdentBelow(a: string, b: string) {
    if IsDigits(a) && IsDigits(b) then DecimalValue(a) < DecimalValue(b)
    else if IsDigits(a) || IsDigits(b) then IsDigits(a)
    else Less(a, b)
  }

  /** Identifier by identifier; if all are equal the shorter list is lower. */
  ghost predicate ListBelow(a: seq<string>, b: seq<string>) {
    b != [] && (a == [] || IdentBelow(a[0], b[0]) || (a[0] == b[0] && ListBelow(a[1..], b[1..])))
  }

  /** Major, minor and patch by value; then a version with a pre-release is below the one without. */
  ghost predicate Below(a: Version, b: Version)
    requires Valid(a) && Valid(b)
  {
    if a.core != b.core then ListBelow(a.core, b.core)
    else a.pre.Some? && (b.pre.None? || ListBelow(a.pre.value, b.pre.value))
  }

  /** Equal up to build metadata. */
  predicate SameRank(a: Version, b: Version) { a.core == b.core && a.pre == b.pre }

  lemma IdentTotal(a: string, b: string)
    requires IsPreIdent(a) && IsPreIdent(b)
    ensures IdentBelow(a, b) || a == b || IdentBelow(b, a)
    ensures !(IdentBelow(a, b) && IdentBelow(b, a)) && !IdentBelow(a, a)
  {
    hide Less, DecimalValue;
    LessTotal(a, b);
    LessIrreflexive(a);
    if IsDigits(a) && IsDigits(b) { NumericIsIntegerComparison(a, b); }
  }

  lemma IdentTransitive(a: string, b: string, c: string)
    requires IdentBelow(a, b) && IdentBelow(b, c)
    ensures IdentBelow(a, c)
  {
    hide Less, DecimalValue;
    if !IsDigits(a) && !IsDigits(b) && !IsDigits(c) { LessTransitive(a, b, c); }
  }

  lemma {:induction false} ListTotal(a: seq<string>, b: seq<string>)
    requires All(a, IsPreIdent) && All(b, IsPreIdent)
    ensures ListBelow(a, b) || a == b || ListBelow(b, a)
    ensures !(ListBelow(a, b) && ListBelow(b, a)) && !ListBelow(a, a)
    decreases |a|
  {
    hide IdentBelow, IsPreIdent;
    if a != [] {
      ListTotal(a[1..], a[1..]);
      IdentTotal(a[0], a[0]);
      if b != [] {
        IdentTotal(a[0], b[0]);
        ListTotal(a[1..], b[1..]);
        assert a == [a[0]] + a[1..] && b == [b[0]] + b[1..];
      }
    }
  }

  lemma {:induction false} ListTransitive(a: seq<string>, b: seq<string>, c: seq<string>)
    requires ListBelow(a, b) && ListBelow(b, c)
    ensures ListBelow(a, c)
    decreases |a|
  {
    hide IdentBelow;
    if a != [] {
      if IdentBelow(a[0], b[0]) && IdentBelow(b[0], c[0]) { IdentTransitive(a[0], b[0], c[0]); }
      if a[0] == b[0] == c[0] && ListBelow(a[1..], b[1..]) && ListBelow(b[1..], c[1..]) {
        ListTransitive(a[1..], b[1..], c[1..]);
      }
    }
  }

  lemma CoreIdents(v: Version)
    requires Valid(v)
    ensures All(v.core, IsPreIdent)
  {
  }

  /** Precedence orders versions totally, up to build metadata. */
  lemma BelowTotal(a: Version, b: Version)
    requires Valid(a) && Valid(b)
    ensures Below(a, b) || SameRank(a, b) || Below(b, a)
    ensures !(Below(a, b) && Below(b, a)) && !(SameRank(a, b) && Below(a, b))
  {
    hide ListBelow, IsPreIdent, IsNumericIdent, IsIdent;
    CoreIdents(a);
    CoreIdents(b);
    ListTotal(a.core, b.core);
    if a.pre.Some? && b.pre.Some? { ListTotal(a.pre.value, b.pre.value); }
  }

  lemma BelowTransitive(a: Version, b: Version, c: Version)
    requires Valid(a) && Valid(b) && Valid(c) && Below(a, b) && Below(b, c)
    ensures Below(a, c)
  {
    hide ListBelow, IsPreIdent, IsNumericIdent, IsIdent;
    CoreIdents(a);
    CoreIdents(b);
    ListTotal(a.core, b.core);
    if a.core != b.core && b.core != c.core {
      ListTransitive(a.core, b.core, c.core);
    } else if a.core == b.core == c.core && c.pre.Some? {
      ListTransitive(a.pre.value, b.pre.value, c.pre.value);
    }
  }

  // ----- the comparison -----

  /** Equal identifiers in front decide nothing. */
  lemma {:induction false} SkipEqual(left: seq<string>, right: seq<string>, k: nat)
    requires All(left, IsPreIdent) && k <= |left| && k <= |right| && left[..k] == right[..k]
    ensures ListBelow(left, right) <==> ListBelow(left[k..], right[k..])
    decreases k
  {
    hide IdentBelow, IsPreIdent;
    if k == 0 {
      assert left[0..] == left && right[0..] == right;
    } else {
      var l, r := left[1..], right[1..];
      assert left[0] == left[..k][0] && right[0] == right[..k][0];
      assert l[..k - 1] == left[..k][1..] && r[..k - 1] == right[..k][1..];
      IdentTotal(left[0], left[0]);
      SkipEqual(l, r, k - 1);
      assert l[k - 1..] == left[k..] && r[k - 1..] == right[k..];
    }
  }

  /** The first difference decides. */
  lemma Decided(left: seq<string>, right: seq<string>, k: nat)
    requires All(left, IsPreIdent) && All(right, IsPreIdent)
    requires k <= |left| && k <= |right| && left[..k] == right[..k]
    ensures k == |left| < |right| ==> ListBelow(left, right)
    ensures k == |right| < |left| ==> ListBelow(right, left)
    ensures k < |left| && k < |right| && IdentBelow(left[k], right[k]) ==> ListBelow(left, right)
    ensures k < |left| && k < |right| && IdentBelow(right[k], left[k]) ==> ListBelow(right, left)
    ensures ListBelow(left, right) ==> !ListBelow(right, left) && left != right
    ensures ListBelow(right, left) ==> !ListBelow(left, right) && left != right
  {
    hide IdentBelow, IsPreIdent;
    SkipEqual(left, right, k);
    SkipEqual(right, left, k);
    ListTotal(left, right);
  }

  /** `comparePrereleaseIdentifiers`. */
  method ComparePrereleaseIdentifiers(left: seq<string>, right: seq<string>) returns (r: int)
    requires All(left, IsPreIdent) && All(right, IsPreIdent)
    ensures r == Sign(ListBelow(left, right), left == right)
  {
    hide ListBelow, Less, DecimalValue, CompareNumericIdentifiers;
    var length := if |left| < |right| then |right| else |left|;
    for index := 0 to length
      invariant index <= |left| && index <= |right| && left[..index] == right[..index]
    {
      Decided(left, right, index);
      if index >= |left| { return -1; }
      if index >= |right| { return 1; }
      var leftPart, rightPart := left[index], right[index];
      var leftNumeric, rightNumeric := IsDigits(leftPart), IsDigits(rightPart);
      if leftNumeric && rightNumeric {
        NumericIsIntegerComparison(leftPart, rightPart);
        var difference := CompareNumericIdentifiers(leftPart, rightPart);
        if difference != 0 { return difference; }
      } else if leftNumeric != rightNumeric {
        return if leftNumeric then -1 else 1;
      } else if leftPart != rightPart {
        LessTotal(leftPart, rightPart);
        return if Less(leftPart, rightPart) then -1 else 1;
      }
    }
    assert left == left[..length] && right == right[..length];
    Decided(left, right, length);
    r := 0;
  }

  /** `compareExactProviderVersions`: build metadata plays no part. */
  method CompareExactProviderVersions(left: string, right: string) returns (r: int)
    requires IsExact(left) && IsExact(right)
    ensures r == Sign(Below(Parsed(left), Parsed(right)), SameRank(Parsed(left), Parsed(right)))
  {
    hide SplitProviderVersion, BuildOf, ListBelow, IsNumericIdent, IsPreIdent, IsIdent, CompareNumericIdentifiers,
         DecimalValue;
    var (leftCore, leftPre) := SplitProviderVersion(left);
    var (rightCore, rightPre) := SplitProviderVersion(right);
    CoreIdents(Parsed(left));
    CoreIdents(Parsed(right));
    for index := 0 to 3
      invariant leftCore[..index] == rightCore[..index]
    {
      Decided(leftCore, rightCore, index);
      CoreCompared(leftCore[index], rightCore[index]);
      var difference := CompareNumericIdentifiers(leftCore[index], rightCore[index]);
      if difference != 0 { return difference; }
    }
    assert leftCore == leftCore[..3] && rightCore == rightCore[..3];
    if leftPre.None? && rightPre.None? { return 0; }
    if leftPre.None? { return 1; }
    if rightPre.None? { return -1; }
    r := ComparePrereleaseIdentifiers(leftPre.value, rightPre.value);
  }

  lemma CoreCompared(a: string, b: string)
    requires IsNumericIdent(a) && IsNumericIdent(b)
    ensures CompareNumericIdentifiers(a, b) == Sign(IdentBelow(a, b), a == b)
    ensures a != b && !IdentBelow(a, b) ==> IdentBelow(b, a)
  {
    hide CompareNumericIdentifiers, DecimalValue;
    NumericIsIntegerComparison(a, b);
  }

  // ----- the floor -----

  /** A pinned version proves what the floor declares. */
  ghost predicate Meets(v: Version, floor: Version)
    requires Valid(v) && Valid(floor)
  {
    && v.core[0] == floor.core[0]
    && if v.core[0] == "0" || v.pre.Some? || floor.pre.Some? then SameRank(v, floor) else !Below(v, floor)
  }

  /** `providerVersionMeetsRuntimeInputFloor`. */
  method ProviderVersionMeetsRuntimeInputFloor(version: Option<string>, minimum: string) returns (meets: bool)
    ensures meets <==>
              && version.Some? && IsExact(version.value) && IsExact(minimum)
              && Meets(Parsed(version.value), Parsed(minimum))
  {
    hide Valid, SplitProviderVersion, Below, BuildOf;
    if version.None? || !IsExact(version.value) || !IsExact(minimum) { return false; }
    ThreeCore(Parsed(version.value));
    ThreeCore(Parsed(minimum));
    BelowTotal(Parsed(version.value), Parsed(minimum));
    var (versionCore, versionPre) := SplitProviderVersion(version.value);
    var (minimumCore, minimumPre) := SplitProviderVersion(minimum);
    if versionCore[0] != minimumCore[0] { return false; }
    var precedence := CompareExactProviderVersions(version.value, minimum);
    if versionCore[0] == "0" || versionPre.Some? || minimumPre.Some? { return precedence == 0; }
    meets := precedence >= 0;
  }

  lemma ThreeCore(v: Version)
    requires Valid(v)
    ensures |v.core| == 3
  {
  }

  /** Meeting the floor is reflexive and transitive on exact versions. */
  lemma MeetsIsPreorder(a: Version, b: Version, c: Version)
    requires Valid(a) && Valid(b) && Valid(c)
    ensures Meets(a, a)
    ensures Meets(a, b) && Meets(b, c) ==> Meets(a, c)
  {
    hide Valid, Below;
    ThreeCore(a);
    BelowTotal(a, a);
    if Meets(a, b) && Meets(b, c) { MeetsTransitive(a, b, c); }
  }

  lemma MeetsTransitive(a: Version, b: Version, c: Version)
    requires Valid(a) && Valid(b) && Valid(c) && Meets(a, b) && Meets(b, c)
    ensures Meets(a, c)
  {
    hide Below;
    BelowTotal(a, b);
    BelowTotal(b, c);
    BelowTotal(a, c);
    if Below(a, c) && Below(c, b) { BelowTransitive(a, c, b); }
    if Below(c, b) && Below(b, a) { BelowTransitive(c, b, a); }
    SameRankBelow(a, b, c);
    SameRankBelow(b, c, a);
  }

  /** Versions of one rank compare alike. */
  lemma SameRankBelow(a: Version, b: Version, c: Version)
    requires Valid(a) && Valid(b) && Valid(c)
    ensures SameRank(a, b) ==> (Below(a, c) <==> Below(b, c)) && (Below(c, a) <==> Below(c, b))
  {
    hide ListBelow;
  }

  /** Among the stable releases of one major from 1 on, a later release meets every floor that an earlier one meets. */
  lemma MeetsIsUpwardClosed(a: Version, b: Version, floor: Version)
    requires Valid(a) && Valid(b) && Valid(floor) && Meets(b, floor)
    requires a.core[0] == b.core[0] != "0" && a.pre.None? && b.pre.None? && !Below(a, b)
    ensures floor.pre.None? && Meets(a, floor)
  {
    hide Below;
    BelowTotal(a, b);
    BelowTotal(b, floor);
    if Below(a, floor) && Below(b, a) { BelowTransitive(b, a, floor); }
    SameRankBelow(a, b, floor);
  }

  /** Build metadata changes nothing. */
  lemma MeetsIgnoresBuild(a: Version, a': Version, floor: Version, floor': Version)
    requires Valid(a) && Valid(a') && Valid(floor) && Valid(floor') && SameRank(a, a') && SameRank(floor, floor')
    ensures Meets(a, floor) <==> Meets(a', floor')
  {
    hide Below;
    SameRankBelow(a, a', floor);
    SameRankBelow(floor, floor', a');
  }
}
