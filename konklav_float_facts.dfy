/** What `ReadFloatLiteral` reads: the shape of a float lexeme, the decimal
    it denotes, and the concrete cases of the parser's own tests. */
module KonklavFloatFacts {
  import opened Text
  import opened KonklavAst
  import opened KonklavGrammar
  import opened KonklavGrammarFacts

  /** A run of characters of the charset that fits in the `atMost + 1` cap
      and is ended by the input's end or a character outside the charset is
      exactly what `ReadCharsMaybe` takes. */
  lemma RunRead(s: string, p: nat, charset: string, atMost: nat, run: string, q: nat)
    requires q == p + |run| && q <= |s| && |run| <= atMost + 1
    requires s[p..q] == run
    requires forall i :: 0 <= i < |run| ==> run[i] in charset
    requires q == |s| || s[q] !in charset
    ensures ReadCharsMaybe(s, p, charset, atMost) == Step(Ok(run), q)
  {
    forall i | p <= i < q ensures s[i] in charset {
      assert s[i] == s[p..q][i - p];
    }
    RunEndOfRun(s, p, charset, atMost + 1, |run|);
  }

  /** A run of decimal digits is a run of the `Digits` charset. */
  lemma DigitRunInCharset(ds: string)
    requires AllDigits(ds)
    ensures forall i :: 0 <= i < |ds| ==> ds[i] in Digits
  {
    forall i | 0 <= i < |ds| ensures ds[i] in Digits {
      DigitsAreDigits(ds[i]);
    }
  }

  /** The four runs of a float lexeme, each ended by a character that
      cannot continue it, are what `ReadFloatLiteral` scans before it
      parses. */
  lemma FloatRunsRead(s: string, p: nat, sign: string, intDigits: string, dots: string, fracDigits: string,
                      q0: nat, q1: nat, q2: nat, q3: nat)
    requires q0 == p + |sign| && q1 == q0 + |intDigits| && q2 == q1 + |dots| && q3 == q2 + |fracDigits|
    requires q3 <= |s|
    requires s[p..q0] == sign && s[q0..q1] == intDigits && s[q1..q2] == dots && s[q2..q3] == fracDigits
    requires |sign| <= 2 && (forall i :: 0 <= i < |sign| ==> sign[i] in "+-") && (q0 == |s| || s[q0] !in "+-")
    requires |intDigits| <= 11 && AllDigits(intDigits) && (q1 == |s| || !IsDigit(s[q1]))
    requires |dots| <= 2 && (forall i :: 0 <= i < |dots| ==> dots[i] == '.') && (q2 == |s| || s[q2] != '.')
    requires |fracDigits| <= 11 && AllDigits(fracDigits) && (q3 == |s| || !IsDigit(s[q3]))
    ensures ReadFloatLiteral(s, p) == FinishFloat(sign, intDigits, dots, fracDigits, q3)
  {
    RunRead(s, p, "+-", 1, sign, q0);
    DigitRunInCharset(intDigits);
    if q1 < |s| {
      DigitsAreDigits(s[q1]);
    }
    RunRead(s, q0, Digits, 10, intDigits, q1);
    RunRead(s, q1, ".", 1, dots, q2);
    DigitRunInCharset(fracDigits);
    if q3 < |s| {
      DigitsAreDigits(s[q3]);
    }
    RunRead(s, q2, Digits, 10, fracDigits, q3);
  }

  /** A float lexeme at p: at most two signs, up to 11 digits, up to two
      dots and up to 11 digits, each run ended by a character that cannot
      continue it. `ReadFloatLiteral` consumes it whole. It yields the
      decimal the lexeme denotes, negated under a '-', exactly when there
      is at most one sign, at most one dot and at least one digit, and
      otherwise fails with the lexeme. */
  lemma FloatLexemeRead(s: string, p: nat, sign: string, intDigits: string, dots: string, fracDigits: string,
                        q0: nat, q1: nat, q2: nat, q3: nat)
    requires q0 == p + |sign| && q1 == q0 + |intDigits| && q2 == q1 + |dots| && q3 == q2 + |fracDigits|
    requires q3 <= |s|
    requires s[p..q0] == sign && s[q0..q1] == intDigits && s[q1..q2] == dots && s[q2..q3] == fracDigits
    requires |sign| <= 2 && (forall i :: 0 <= i < |sign| ==> sign[i] in "+-") && (q0 == |s| || s[q0] !in "+-")
    requires |intDigits| <= 11 && AllDigits(intDigits) && (q1 == |s| || !IsDigit(s[q1]))
    requires |dots| <= 2 && (forall i :: 0 <= i < |dots| ==> dots[i] == '.') && (q2 == |s| || s[q2] != '.')
    requires |fracDigits| <= 11 && AllDigits(fracDigits) && (q3 == |s| || !IsDigit(s[q3]))
    ensures var r := ReadFloatLiteral(s, p);
      && r.pos == q3
      && (r.result.Ok? <==> |sign| <= 1 && |dots| <= 1 && |intDigits| + |fracDigits| > 0)
      && (r.result.Ok? ==> r.result.value.lexeme == sign + intDigits + dots + fracDigits)
      && (r.result.Ok? && dots == "." ==> r.result.value.value == Signed(sign, DecimalValue(intDigits, fracDigits)))
      && (r.result.Ok? && dots == "" ==>
            r.result.value.value == Signed(sign, (DigitsValue(intDigits) * Pow10(|fracDigits|) + DigitsValue(fracDigits)) as real))
      && (r.result.Err? ==> r.result.error == InvalidFloatLiteral(sign + intDigits + dots + fracDigits))
  {
    FloatRunsRead(s, p, sign, intDigits, dots, fracDigits, q0, q1, q2, q3);
    FinishFloatFacts(sign, intDigits, dots, fracDigits, q3);
  }

  /** A float lexeme without a dot, with at most one sign and at least one
      digit, reads as the signed whole number its digits denote. */
  lemma WholeNumberRead(s: string, p: nat, sign: string, digits: string, q0: nat, q1: nat)
    requires q0 == p + |sign| && q1 == q0 + |digits| && q1 <= |s|
    requires s[p..q0] == sign && s[q0..q1] == digits
    requires |sign| <= 1 && (forall i :: 0 <= i < |sign| ==> sign[i] in "+-") && (q0 == |s| || s[q0] !in "+-")
    requires 0 < |digits| <= 11 && AllDigits(digits)
    requires q1 == |s| || (!IsDigit(s[q1]) && s[q1] != '.')
    ensures ReadFloatLiteral(s, p) == Step(Ok(ExactFloatValue(sign + digits, Signed(sign, DigitsValue(digits) as real))), q1)
  {
    var whole := Step(Ok(ExactFloatValue(sign + digits, Signed(sign, DigitsValue(digits) as real))), q1);
    assert FinishFloat(sign, digits, "", "", q1) == whole by {
      FinishFloatFacts(sign, digits, "", "", q1);
      assert sign + digits + "" + "" == sign + digits;
      assert DigitsValue("") == 0 && Pow10(0) == 1;
    }
    assert s[q1..q1] == "";
    FloatRunsRead(s, p, sign, digits, "", "", q0, q1, q1, q1);
  }

  /** A float lexeme with one dot, at most one sign and at least one digit
      reads as the signed decimal it denotes. */
  lemma DecimalRead(s: string, p: nat, sign: string, intDigits: string, fracDigits: string,
                    q0: nat, q1: nat, q2: nat, q3: nat)
    requires q0 == p + |sign| && q1 == q0 + |intDigits| && q2 == q1 + 1 && q3 == q2 + |fracDigits| && q3 <= |s|
    requires s[p..q0] == sign && s[q0..q1] == intDigits && s[q1..q2] == "." && s[q2..q3] == fracDigits
    requires |sign| <= 1 && (forall i :: 0 <= i < |sign| ==> sign[i] in "+-") && (q0 == |s| || s[q0] !in "+-")
    requires |intDigits| <= 11 && AllDigits(intDigits)
    requires |fracDigits| <= 11 && AllDigits(fracDigits) && (q3 == |s| || !IsDigit(s[q3]))
    requires |intDigits| + |fracDigits| > 0
    requires q2 == |s| || s[q2] != '.'
    ensures ReadFloatLiteral(s, p) ==
      Step(Ok(ExactFloatValue(sign + intDigits + "." + fracDigits, Signed(sign, DecimalValue(intDigits, fracDigits)))), q3)
  {
    var decimal := Step(Ok(ExactFloatValue(sign + intDigits + "." + fracDigits, Signed(sign, DecimalValue(intDigits, fracDigits)))), q3);
    assert FinishFloat(sign, intDigits, ".", fracDigits, q3) == decimal by {
      FinishFloatFacts(sign, intDigits, ".", fracDigits, q3);
    }
    FloatRunsRead(s, p, sign, intDigits, ".", fracDigits, q0, q1, q2, q3);
  }

  /** What `FinishFloat` yields, in terms of the lexeme's runs. */
  lemma FinishFloatFacts(sign: string, intDigits: string, dots: string, fracDigits: string, q: nat)
    requires AllDigits(intDigits) && AllDigits(fracDigits)
    ensures var r := FinishFloat(sign, intDigits, dots, fracDigits, q);
      && r.pos == q
      && (r.result.Ok? <==> |sign| <= 1 && |dots| <= 1 && |intDigits| + |fracDigits| > 0)
      && (r.result.Ok? ==> r.result.value.lexeme == sign + intDigits + dots + fracDigits)
      && (r.result.Ok? && dots == "." ==> r.result.value.value == Signed(sign, DecimalValue(intDigits, fracDigits)))
      && (r.result.Ok? && dots == "" ==>
            r.result.value.value == Signed(sign, (DigitsValue(intDigits) * Pow10(|fracDigits|) + DigitsValue(fracDigits)) as real))
      && (r.result.Err? ==> r.result.error == InvalidFloatLiteral(sign + intDigits + dots + fracDigits))
  {
  }

  /** The parser's tests "100" and "100a": the letter ends the lexeme. */
  lemma FloatHundredCases(s: string)
    requires s == "100" || s == "100a"
    ensures ReadFloatLiteral(s, 0) == Step(Ok(ExactFloatValue("100", 100.0)), 3)
  {
    assert Signed("", DigitsValue("100") as real) == 100.0 by {
      assert "100"[..2] == "10";
      assert "10"[..1] == "1";
    }
    assert "" + "100" == "100";
    assert s[0..0] == "" && s[0..3] == "100";
    WholeNumberRead(s, 0, "", "100", 0, 3);
  }

  /** The parser's tests "1" and "1  asdasd": the blank ends the lexeme. */
  lemma FloatOneCases(s: string)
    requires s == "1" || s == "1  asdasd"
    ensures ReadFloatLiteral(s, 0) == Step(Ok(ExactFloatValue("1", 1.0)), 1)
  {
    assert Signed("", DigitsValue("1") as real) == 1.0 by {
      assert "1"[..0] == "";
    }
    assert "" + "1" == "1";
    assert s[0..0] == "" && s[0..1] == "1";
    WholeNumberRead(s, 0, "", "1", 0, 1);
  }

  /** The parser's tests "0.01" and "0.01 \n": one hundredth. */
  lemma FloatHundredthCases(s: string)
    requires s == "0.01" || s == "0.01 \n"
    ensures ReadFloatLiteral(s, 0) == Step(Ok(ExactFloatValue("0.01", 1.0 / 100.0)), 4)
  {
    assert Signed("", DecimalValue("0", "01")) == 1.0 / 100.0 by {
      assert "0"[..0] == "";
      assert "01"[..1] == "0";
      assert Pow10(2) == 100;
    }
    assert "" + "0" + "." + "01" == "0.01";
    assert s[..4] == "0.01";
    assert s[0..0] == "" && s[0..1] == "0" && s[1..2] == "." && s[2..4] == "01" by {
      assert s[0..1] == s[..4][0..1] && s[1..2] == s[..4][1..2] && s[2..4] == s[..4][2..4];
    }
    DecimalRead(s, 0, "", "0", "01", 0, 1, 2, 4);
  }

  /** The parser's tests "-10000" and "-10000-1": one sign, and the second
      '-' ends the lexeme. */
  lemma FloatNegativeCases(s: string)
    requires s == "-10000" || s == "-10000-1"
    ensures ReadFloatLiteral(s, 0) == Step(Ok(ExactFloatValue("-10000", -10000.0)), 6)
  {
    assert Signed("-", DigitsValue("10000") as real) == -10000.0 by {
      assert "10000"[..4] == "1000";
      assert "1000"[..3] == "100";
      assert "100"[..2] == "10";
      assert "10"[..1] == "1";
    }
    assert "-" + "10000" == "-10000";
    assert s[0..1] == "-" && s[1..6] == "10000";
    WholeNumberRead(s, 0, "-", "10000", 1, 6);
  }

  /** The parser's tests "+.42" and "+.42asdfvn!": no integer digits, and
      the letter ends the lexeme. */
  lemma FloatFractionCases(s: string)
    requires s == "+.42" || s == "+.42asdfvn!"
    ensures ReadFloatLiteral(s, 0) == Step(Ok(ExactFloatValue("+.42", 42.0 / 100.0)), 4)
  {
    assert Signed("+", DecimalValue("", "42")) == 42.0 / 100.0 by {
      assert "42"[..1] == "4";
      assert Pow10(2) == 100;
    }
    assert "+" + "" + "." + "42" == "+.42";
    assert s[0..1] == "+" && s[1..1] == "" && s[1..2] == "." && s[2..4] == "42";
    DecimalRead(s, 0, "+", "", "42", 1, 1, 2, 4);
  }

  /** A lone sign or a lone dot holds no digit and is rejected. */
  lemma FloatWithoutDigits(s: string)
    requires s == "-" || s == "."
    ensures ReadFloatLiteral(s, 0) == Step(Err(InvalidFloatLiteral(s)), 1)
  {
    if s == "-" {
      assert "-" + "" + "" + "" == s;
      assert s[0..1] == "-" && s[1..1] == "";
      FloatLexemeRead(s, 0, "-", "", "", "", 1, 1, 1, 1);
    } else {
      assert "" + "" + "." + "" == s;
      assert s[0..0] == "" && s[0..1] == "." && s[1..1] == "";
      FloatLexemeRead(s, 0, "", "", ".", "", 0, 0, 1, 1);
    }
  }

  /** Two dots are a lexeme `float.TryParse` rejects: "1..2" fails whole. */
  lemma FloatTwoDots(s: string)
    requires s == "1..2"
    ensures ReadFloatLiteral(s, 0) == Step(Err(InvalidFloatLiteral("1..2")), 4)
  {
    assert "" + "1" + ".." + "2" == s;
    assert s[0..0] == "" && s[0..1] == "1" && s[1..3] == ".." && s[3..4] == "2";
    FloatLexemeRead(s, 0, "", "1", "..", "2", 0, 1, 3, 4);
  }
}
