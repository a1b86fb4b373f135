/** Names of temporary part files: the part number in decimal, padded with
    zeros to eight digits. */
module TempNames {
  import opened Text

  function Digit(d: nat): char
    requires d < 10
  {
    ('0' as int + d) as char
  }

  function Decimal(n: nat): string {
    if n < 10 then [Digit(n)] else Decimal(n / 10) + [Digit(n % 10)]
  }

  /** fmt.Sprintf("%08d", n) from the digits of n. */
  function Pad(digits: string): string
    decreases 8 - |digits|
  {
    if |digits| >= 8 then digits else Pad("0" + digits)
  }

  function PartPath(dir: string, n: nat): string {
    dir + "/" + Pad(Decimal(n)) + ".part"
  }

  lemma {:induction false} ValueOfDecimal(n: nat)
    ensures Value(Decimal(n)) == n
  {
    if n >= 10 {
      ValueOfDecimal(n / 10);
      var digits := Decimal(n);
      assert digits[..|digits| - 1] == Decimal(n / 10);
    } else {
      assert Value(Decimal(n)[..0]) == 0;
    }
  }

  lemma {:induction false} LeadingZero(digits: string)
    ensures Value("0" + digits) == Value(digits)
  {
    if digits == "" {
      assert Value("0"[..0]) == 0;
    } else {
      var last := |digits| - 1;
      LeadingZero(digits[..last]);
      assert ("0" + digits)[..last + 1] == "0" + digits[..last];
    }
  }

  lemma {:induction false} ValueOfPad(digits: string)
    ensures Value(Pad(digits)) == Value(digits)
    decreases 8 - |digits|
  {
    if |digits| < 8 {
      LeadingZero(digits);
      ValueOfPad("0" + digits);
    }
  }

  lemma {:induction false} PadWidth(digits: string)
    ensures |Pad(digits)| == if |digits| < 8 then 8 else |digits|
    decreases 8 - |digits|
  {
    if |digits| < 8 {
      PadWidth("0" + digits);
    }
  }

  /** A part's file lies in the directory, under at least eight digits. */
  lemma PartPathShape(dir: string, n: nat) returns (digits: string)
    ensures PartPath(dir, n) == dir + "/" + digits + ".part"
    ensures |digits| >= 8 && Value(digits) == n
  {
    digits := Pad(Decimal(n));
    PadWidth(Decimal(n));
    ValueOfPad(Decimal(n));
    ValueOfDecimal(n);
  }

  /** Different parts of an upload have different files. */
  lemma PartPathInjective(dir: string, m: nat, n: nat)
    requires PartPath(dir, m) == PartPath(dir, n)
    ensures m == n
  {
    var a, b := Pad(Decimal(m)), Pad(Decimal(n));
    assert PartPath(dir, m) == (dir + "/") + (a + ".part") && PartPath(dir, n) == (dir + "/") + (b + ".part");
    assert a + ".part" == PartPath(dir, m)[|dir| + 1..] == PartPath(dir, n)[|dir| + 1..] == b + ".part";
    assert a == (a + ".part")[..|a|] == (b + ".part")[..|b|] == b;
    ValueOfPad(Decimal(m));
    ValueOfPad(Decimal(n));
    ValueOfDecimal(m);
    ValueOfDecimal(n);
  }
}
