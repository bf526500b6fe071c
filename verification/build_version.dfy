// The version number of the camera apex, computed from the build id (version_script.py).
module BuildVersion {

  const BRANCH_SPECIFIC_VERSION_IDENTIFIER: nat := 4
  const DEFAULT_ENG_BUILD_NUMBER: nat := 2147480000
  const DEFAULT_BAD_BUILD_NUMBER: nat := DEFAULT_ENG_BUILD_NUMBER - 1
  const INT_MAX: nat := 0x7FFF_FFFF

  // ---------- Decimal strings ----------

  predicate IsDigit(c: char) { '0' <= c <= '9' }

  function Digit(d: nat): char
    requires d < 10
  {
    ('0' as int + d) as char
  }

  function DigitValue(c: char): (d: nat)
    requires IsDigit(c)
  {
    c as int - '0' as int
  }

  ghost predicate AllDigits(s: string) {
    forall i :: 0 <= i < |s| ==> IsDigit(s[i])
  }

  // str(n)
  function Decimal(n: nat): (s: string)
    ensures s != "" && AllDigits(s)
  {
    if n < 10 then [Digit(n)] else Decimal(n / 10) + [Digit(n % 10)]
  }

  // int(s)
  function Value(s: string): nat
    requires AllDigits(s)
  {
    if s == "" then 0 else 10 * Value(s[..|s| - 1]) + DigitValue(s[|s| - 1])
  }

  function Zeros(n: nat): (s: string)
    ensures |s| == n && AllDigits(s)
  {
    seq(n, i => '0')
  }

  // s.zfill(width)
  function ZFill(s: string, width: nat): (r: string)
    ensures |r| == if |s| < width then width else |s|
    ensures AllDigits(s) ==> AllDigits(r)
  {
    if |s| < width then Zeros(width - |s|) + s else s
  }

  function Pow10(n: nat): (p: nat)
    ensures p >= 1
  {
    if n == 0 then 1 else 10 * Pow10(n - 1)
  }

  lemma {:induction false} ValueOfDecimal(n: nat)
    ensures Value(Decimal(n)) == n
  {
    if n < 10 {
      assert Decimal(n)[..0] == "";
    } else {
      ValueOfDecimal(n / 10);
      assert Decimal(n)[..|Decimal(n)| - 1] == Decimal(n / 10);
    }
  }

  lemma {:induction false} ValueConcat(a: string, b: string)
    requires AllDigits(a) && AllDigits(b)
    ensures Value(a + b) == Value(a) * Pow10(|b|) + Value(b)
  {
    if b == "" {
      assert a + b == a;
    } else {
      var front := b[..|b| - 1];
      assert (a + b)[..|a + b| - 1] == a + front;
      ValueConcat(a, front);
      ShiftOne(Value(a), Pow10(|front|), Value(front), DigitValue(b[|b| - 1]));
    }
  }

  lemma ShiftOne(x: nat, p: nat, v: nat, d: nat)
    ensures 10 * (x * p + v) + d == x * (10 * p) + (10 * v + d)
  {
  }

  lemma {:induction false} ValueOfZeros(n: nat)
    ensures Value(Zeros(n)) == 0
  {
    if n > 0 {
      assert Zeros(n)[..n - 1] == Zeros(n - 1);
      ValueOfZeros(n - 1);
    }
  }

  // A number has at most k digits if and only if it is less than the k-th power of ten.
  lemma {:induction false} DecimalLength(n: nat, k: nat)
    requires k >= 1
    ensures |Decimal(n)| <= k <==> n < Pow10(k)
  {
    if n >= 10 && k > 1 {
      DecimalLength(n / 10, k - 1);
      assert Pow10(k) == 10 * Pow10(k - 1);
    } else if n >= 10 {
      assert Pow10(1) == 10 * Pow10(0);
      assert |Decimal(n)| == |Decimal(n / 10)| + 1;
    } else {
      assert Pow10(k) == 10 * Pow10(k - 1);
    }
  }

  // Filling with zeros does not change the value.
  lemma ZFillKeepsValue(n: nat, width: nat)
    ensures Value(ZFill(Decimal(n), width)) == n
  {
    ValueOfDecimal(n);
    if |Decimal(n)| < width {
      ValueOfZeros(width - |Decimal(n)|);
      ValueConcat(Zeros(width - |Decimal(n)|), Decimal(n));
    }
  }

  // ---------- The version ----------

  // Keep a number within 1 and the eng number.
  function TameBox(n: int): (r: nat)
    ensures 1 <= r <= DEFAULT_ENG_BUILD_NUMBER
    ensures 1 <= n <= DEFAULT_ENG_BUILD_NUMBER ==> r == n
  {
    if n < 1 then 1 else if n > DEFAULT_ENG_BUILD_NUMBER then DEFAULT_BAD_BUILD_NUMBER else n
  }

  function DigitsAtFront(s: string): (r: string)
    ensures AllDigits(r)
    ensures r <= s && (|r| < |s| ==> !IsDigit(s[|r|]))
  {
    if s == "" || !IsDigit(s[0]) then "" else [s[0]] + DigitsAtFront(s[1..])
  }

  // What [0-9]+ matches first, or nothing.
  function FirstDigits(s: string): (r: string)
    ensures AllDigits(r)
  {
    if s == "" then "" else if IsDigit(s[0]) then DigitsAtFront(s) else FirstDigits(s[1..])
  }

  predicate IsEng(build: string) { "eng." <= build }

  function BuildNumber(build: string): nat {
    if IsEng(build) then DEFAULT_ENG_BUILD_NUMBER
    else if FirstDigits(build) == "" then DEFAULT_BAD_BUILD_NUMBER
    else Value(FirstDigits(build))
  }

  // The branch number and the build number side by side.
  function Branched(n: nat): nat {
    if n == DEFAULT_ENG_BUILD_NUMBER then n + BRANCH_SPECIFIC_VERSION_IDENTIFIER
    else
      ValueOfBranch(n);
      TameBox(Value(Decimal(BRANCH_SPECIFIC_VERSION_IDENTIFIER) + ZFill(Decimal(n), 8)))
  }

  function Version(build: string): nat {
    Branched(TameBox(BuildNumber(build)))
  }

  // It is just string concatenation: digits stay digits.
  lemma ValueOfBranch(n: nat)
    ensures AllDigits(Decimal(BRANCH_SPECIFIC_VERSION_IDENTIFIER) + ZFill(Decimal(n), 8))
    ensures Value(Decimal(BRANCH_SPECIFIC_VERSION_IDENTIFIER) + ZFill(Decimal(n), 8)) ==
            4 * Pow10(|ZFill(Decimal(n), 8)|) + n
  {
    var front := Decimal(BRANCH_SPECIFIC_VERSION_IDENTIFIER);
    ValueOfDecimal(BRANCH_SPECIFIC_VERSION_IDENTIFIER);
    ZFillKeepsValue(n, 8);
    ValueConcat(front, ZFill(Decimal(n), 8));
  }

  lemma {:induction false} Pow10Grows(m: nat, n: nat)
    requires m <= n
    ensures Pow10(m) <= Pow10(n)
  {
    if m < n { Pow10Grows(m, n - 1); }
  }

  lemma EightDigits()
    ensures Pow10(8) == 100_000_000
  {
    assert Pow10(4) == 10_000;
    assert Pow10(8) == 10 * 10 * 10 * 10 * Pow10(4);
  }

  // Up to eight digits the build number is added to the branch; a longer one is out of range.
  lemma BranchedIs(n: nat)
    requires 1 <= n <= DEFAULT_ENG_BUILD_NUMBER
    ensures Branched(n) ==
            if n == DEFAULT_ENG_BUILD_NUMBER then DEFAULT_ENG_BUILD_NUMBER + 4
            else if n < 100_000_000 then 400_000_000 + n
            else DEFAULT_BAD_BUILD_NUMBER
  {
    EightDigits();
    DecimalLength(n, 8);
    ValueOfBranch(n);
    if n >= 100_000_000 {
      Pow10Grows(9, |Decimal(n)|);
    }
  }

  // Every version is a positive 32-bit number above all tamed build numbers it is made from.
  lemma VersionInRange(build: string)
    ensures 400_000_001 <= Version(build) <= INT_MAX
  {
    BranchedIs(TameBox(BuildNumber(build)));
  }

  lemma {:induction false} AllDigitsAtFront(s: string)
    requires AllDigits(s)
    ensures DigitsAtFront(s) == s
  {
    if s != "" { AllDigitsAtFront(s[1..]); }
  }

  // A regular build id is a number, a pending one has a letter before it.
  lemma BuildNumberOf(n: nat)
    ensures BuildNumber(Decimal(n)) == n && BuildNumber("P" + Decimal(n)) == n
  {
    var s := Decimal(n);
    AllDigitsAtFront(s);
    ValueOfDecimal(n);
    assert IsDigit(s[0]);
    assert ("P" + s)[1..] == s && ("P" + s)[0] == 'P';
    assert s[0] != 'e';
  }

  // The version of every build number. Numbers of up to eight digits follow the branch number.
  lemma {:induction false} VersionByNumber(n: nat)
    ensures Version("P" + Decimal(n)) == Version(Decimal(n))
    ensures Version(Decimal(n)) ==
            if n == 0 then 400_000_001
            else if n < 100_000_000 then 400_000_000 + n
            else if n == DEFAULT_ENG_BUILD_NUMBER then DEFAULT_ENG_BUILD_NUMBER + 4
            else DEFAULT_BAD_BUILD_NUMBER
  {
    BuildNumberOf(n);
    BranchedIs(TameBox(n));
  }

  // A later build gets a higher version if and only if the earlier number is in range: longer ones
  // all get the same version, except that one of them is taken for an eng build.
  lemma {:induction false} VersionsIncreaseIff(m: nat, n: nat)
    requires m < n
    ensures Version(Decimal(m)) < Version(Decimal(n)) <==>
            (m == 0 && n > 1) || 1 <= m < 100_000_000 || (m >= 100_000_000 && n == DEFAULT_ENG_BUILD_NUMBER)
  {
    VersionByNumber(m);
    VersionByNumber(n);
  }

  // Every eng build is at least as high as any build, and as high as one only if that is an eng
  // build or has the eng number.
  lemma EngAboveAll(eng: string, build: string)
    requires IsEng(eng)
    ensures Version(build) <= Version(eng) == DEFAULT_ENG_BUILD_NUMBER + 4
    ensures Version(build) == Version(eng) <==> BuildNumber(build) == DEFAULT_ENG_BUILD_NUMBER
  {
    BranchedIs(TameBox(BuildNumber(build)));
    BranchedIs(DEFAULT_ENG_BUILD_NUMBER);
  }
}
