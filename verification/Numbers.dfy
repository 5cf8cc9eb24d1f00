/** Which byte strings the parser reads as which length. */
module Numbers {
  import opened Base
  import opened Http1
  import opened Http1Messages

  const PLUS: byte := 43
  const ZERO: byte := 48

  predicate AllZero(s: bytes)
  {
    forall i :: 0 <= i < |s| ==> s[i] == ZERO
  }

  function LowerAll(s: bytes): (r: bytes)
    ensures |r| == |s|
  {
    if s == [] then [] else LowerAll(s[..|s| - 1]) + [Lower(s[|s| - 1])]
  }

  /** Leading zeros and then the number itself, with letters in either case. */
  predicate SpelledAs(s: bytes, zeros: bytes, digits: bytes, n: nat, radix: nat)
    requires radix == 10 || radix == 16
  {
    s == zeros + digits && AllZero(zeros) && LowerAll(digits) == Spell(n, radix)
  }

  ghost predicate Spells(s: bytes, n: nat, radix: nat)
    requires radix == 10 || radix == 16
  {
    exists zeros, digits :: SpelledAs(s, zeros, digits, n, radix)
  }

  /** `core` with white space around it. */
  predicate Padded(s: bytes, front: bytes, core: bytes, back: bytes)
  {
    s == front + core + back && AllWhite(front) && AllWhite(back)
  }

  /** A spelling, perhaps after a plus sign. */
  ghost predicate Signed(core: bytes, n: nat, radix: nat)
    requires radix == 10 || radix == 16
  {
    core != [] && Spells(if core[0] == PLUS then core[1..] else core, n, radix)
  }

  ghost predicate Announces(s: bytes, n: nat, radix: nat)
    requires radix == 10 || radix == 16
  {
    exists front, core, back :: Padded(s, front, core, back) && Signed(core, n, radix)
  }

  lemma LowerDigit(b: byte, radix: nat)
    requires radix <= 36
    ensures DigitOf(Lower(b), radix) == DigitOf(b, radix)
  {
  }

  lemma {:induction false} LowerKeepsDigits(s: bytes, radix: nat)
    requires radix <= 36
    ensures Digits(LowerAll(s), radix) == Digits(s, radix)
  {
    if s != [] {
      var init := s[..|s| - 1];
      LowerKeepsDigits(init, radix);
      LowerDigit(s[|s| - 1], radix);
      assert LowerAll(s)[..|s| - 1] == LowerAll(init);
    }
  }

  lemma {:induction false} ZerosKeepDigits(zeros: bytes, s: bytes, radix: nat)
    requires AllZero(zeros) && 0 < radix
    ensures Digits(zeros + s, radix) == Digits(s, radix)
    decreases |zeros| + |s|
  {
    var all := zeros + s;
    if s != [] {
      assert all[..|all| - 1] == zeros + s[..|s| - 1];
      ZerosKeepDigits(zeros, s[..|s| - 1], radix);
    } else if zeros != [] {
      var init := zeros[..|zeros| - 1];
      assert all == zeros && init + [] == init;
      ZerosKeepDigits(init, [], radix);
    }
  }

  lemma SpellingReads(s: bytes, n: nat, radix: nat)
    requires (radix == 10 || radix == 16) && Spells(s, n, radix)
    ensures Digits(s, radix) == Some(n) && s != []
  {
    var zeros, digits :| SpelledAs(s, zeros, digits, n, radix);
    ZerosKeepDigits(zeros, digits, radix);
    LowerKeepsDigits(digits, radix);
    DigitsOfSpelling(n, radix);
  }

  lemma LastDigit(b: byte, radix: nat)
    requires (radix == 10 || radix == 16) && DigitOf(b, radix).Some?
    ensures [Lower(b)] == Spell(DigitOf(b, radix).value, radix) && LowerAll([b]) == [Lower(b)]
    ensures !White(b) && b != PLUS && (DigitOf(b, radix) == Some(0) ==> b == ZERO)
  {
    assert [b][..0] == [];
  }

  lemma SplitNumber(high: nat, low: nat, radix: nat)
    requires (radix == 10 || radix == 16) && low < radix
    ensures (high * radix + low) / radix == high && (high * radix + low) % radix == low
  {
    if radix == 10 {
      assert (high * 10 + low) / 10 == high;
    } else {
      assert (high * 16 + low) / 16 == high;
    }
  }

  lemma MoreDigits(digits: bytes, last: byte)
    ensures LowerAll(digits + [last]) == LowerAll(digits) + [Lower(last)]
  {
    assert (digits + [last])[..|digits|] == digits;
  }

  lemma LongSpelling(n: nat, last: byte, radix: nat)
    requires (radix == 10 || radix == 16) && DigitOf(last, radix) == Some(n % radix) && n >= radix
    ensures Spell(n, radix) == Spell(n / radix, radix) + [Lower(last)]
  {
    DigitInLowerCase(last, radix);
  }

  lemma DigitInLowerCase(b: byte, radix: nat)
    requires radix <= 16 && DigitOf(b, radix).Some?
    ensures var d := DigitOf(b, radix).value; Lower(b) == if d < 10 then 48 + d else 87 + d
  {
  }

  lemma ZeroIsZero(digits: bytes)
    requires LowerAll(digits) == [ZERO]
    ensures digits == [ZERO]
  {
    assert |digits| == 1 && digits == [digits[0]];
    assert LowerAll([]) == [] && [digits[0]][..0] == [];
    assert LowerAll([digits[0]]) == [] + [Lower(digits[0])];
  }

  lemma Appended(zeros: bytes, digits: bytes, last: byte, n: nat, radix: nat)
    requires (radix == 10 || radix == 16) && AllZero(zeros) && LowerAll(digits) + [Lower(last)] == Spell(n, radix)
    ensures Spells(zeros + digits + [last], n, radix)
  {
    MoreDigits(digits, last);
    assert zeros + digits + [last] == zeros + (digits + [last]);
    assert SpelledAs(zeros + digits + [last], zeros, digits + [last], n, radix);
  }

  lemma ZeroExtends(init: bytes, last: byte, n: nat, radix: nat)
    requires (radix == 10 || radix == 16) && DigitOf(last, radix) == Some(n) && AllZero(init)
    ensures Spells(init + [last], n, radix)
  {
    LastDigit(last, radix);
    assert SpelledAs(init + [last], init, [last], n, radix);
  }

  lemma {:induction false} ShortNumber(init: bytes, last: byte, zeros: bytes, digits: bytes, n: nat, radix: nat)
    requires (radix == 10 || radix == 16) && DigitOf(last, radix) == Some(n) && SpelledAs(init, zeros, digits, 0, radix)
    ensures Spells(init + [last], n, radix)
  {
    ZeroIsZero(digits);
    ZeroExtends(init, last, n, radix);
  }

  lemma {:induction false} LongNumber(init: bytes, last: byte, zeros: bytes, digits: bytes, n: nat, radix: nat)
    requires (radix == 10 || radix == 16) && DigitOf(last, radix) == Some(n % radix) && n >= radix
    requires SpelledAs(init, zeros, digits, n / radix, radix)
    ensures Spells(init + [last], n, radix)
  {
    LongSpelling(n, last, radix);
    Appended(zeros, digits, last, n, radix);
  }

  lemma {:induction false} SmallNumber(n: nat, radix: nat)
    requires n < radix
    ensures n / radix == 0 && n % radix == n
  {
  }

  lemma {:induction false} LongerSpells(init: bytes, last: byte, n: nat, radix: nat)
    requires (radix == 10 || radix == 16) && DigitOf(last, radix) == Some(n % radix) && Spells(init, n / radix, radix)
    ensures Spells(init + [last], n, radix)
  {
    var zeros, digits :| SpelledAs(init, zeros, digits, n / radix, radix);
    if n < radix {
      SmallNumber(n, radix);
      ShortNumber(init, last, zeros, digits, n, radix);
    } else {
      LongNumber(init, last, zeros, digits, n, radix);
    }
  }

  /** What reads as a number is one of its spellings. */
  lemma {:induction false} ReadIsSpelling(s: bytes, n: nat, radix: nat)
    requires (radix == 10 || radix == 16) && s != [] && Digits(s, radix) == Some(n)
    ensures Spells(s, n, radix)
    decreases |s|
  {
    var init, last := s[..|s| - 1], s[|s| - 1];
    assert s == init + [last];
    if init == [] {
      LastDigit(last, radix);
      assert SpelledAs(s, [], [last], n, radix);
    } else {
      var high := Digits(init, radix).value;
      SplitNumber(high, DigitOf(last, radix).value, radix);
      ReadIsSpelling(init, high, radix);
      LongerSpells(init, last, n, radix);
    }
  }

  lemma {:induction false} DigitsAreDigits(s: bytes, radix: nat)
    requires (radix == 10 || radix == 16) && Digits(s, radix).Some?
    ensures forall i :: 0 <= i < |s| ==> !White(s[i]) && s[i] != PLUS
  {
    if s != [] {
      DigitsAreDigits(s[..|s| - 1], radix);
      LastDigit(s[|s| - 1], radix);
    }
  }

  // ----- Trimming

  lemma {:induction false} TrimFront(front: bytes, s: bytes)
    requires AllWhite(front) && s != [] && !White(s[0])
    ensures TrimStart(front + s) == s
  {
    if front == [] {
      assert front + s == s;
    } else {
      assert (front + s)[1..] == front[1..] + s;
      TrimFront(front[1..], s);
    }
  }

  lemma {:induction false} TrimBack(s: bytes, back: bytes)
    requires AllWhite(back) && s != [] && !White(s[|s| - 1])
    ensures TrimEnd(s + back) == s
  {
    var all := s + back;
    if back == [] {
      assert all == s;
    } else {
      assert all[..|all| - 1] == s + back[..|back| - 1];
      TrimBack(s, back[..|back| - 1]);
    }
  }

  lemma TrimBoth(front: bytes, s: bytes, back: bytes)
    requires AllWhite(front) && AllWhite(back) && s != [] && !White(s[0]) && !White(s[|s| - 1])
    ensures Trim(front + s + back) == s
  {
    assert front + s + back == front + (s + back);
    TrimFront(front, s + back);
    TrimBack(s, back);
  }

  lemma SignedReads(core: bytes, n: nat, radix: nat, limit: nat)
    requires (radix == 10 || radix == 16) && n < limit && Signed(core, n, radix)
    ensures ParseNumber(core, radix, limit) == Some(n)
    ensures !White(core[0]) && !White(core[|core| - 1])
  {
    var digits := if core[0] == PLUS then core[1..] else core;
    SpellingReads(digits, n, radix);
    DigitsAreDigits(digits, radix);
  }

  lemma ReadIsSigned(core: bytes, n: nat, radix: nat, limit: nat)
    requires (radix == 10 || radix == 16) && ParseNumber(core, radix, limit) == Some(n)
    ensures n < limit && Signed(core, n, radix)
  {
    ReadIsSpelling(if core[0] == PLUS then core[1..] else core, n, radix);
  }

  /** A length field reads as a number below the limit exactly if it consists of white space, at most
      one plus sign, any number of leading zeros, the digits of that number with letters in either
      case, and white space. */
  lemma NumberReadsIff(s: bytes, n: nat, radix: nat, limit: nat)
    requires radix == 10 || radix == 16
    ensures ParseNumber(Trim(s), radix, limit) == Some(n) <==> n < limit && Announces(s, n, radix)
  {
    if n < limit && Announces(s, n, radix) {
      var front, core, back :| Padded(s, front, core, back) && Signed(core, n, radix);
      SignedReads(core, n, radix, limit);
      TrimBoth(front, core, back);
    }
    if ParseNumber(Trim(s), radix, limit) == Some(n) {
      TrimMeans(s);
      var front, back :| s == front + Trim(s) + back && AllWhite(front) && AllWhite(back);
      ReadIsSigned(Trim(s), n, radix, limit);
      assert Padded(s, front, Trim(s), back);
    }
  }
}
