/** Worked cases of the streak rules: the strict threshold, a reset in the
    middle of a resource streak, and the fifth pick failure. */
module Scenarios {
  import opened Options
  import opened Text
  import opened Parse
  import opened Tracking

  /** Exactly 85 is not an overuse; 85.1 is. */
  lemma ThresholdIsStrict()
    ensures ParseNumeral("85") == Some(Decimal(85, 0)) && !Above85(Decimal(85, 0))
    ensures ParseNumeral("85.0") == Some(Decimal(850, 1)) && !Above85(Decimal(850, 1))
    ensures ParseNumeral("85.1") == Some(Decimal(851, 1)) && Above85(Decimal(851, 1))
  {
    assert "85"[..1] == "8" && "8"[..0] == [];
    assert DigitsValue("85") == 85;
    assert CountDots("85") == 0 by {
      assert "85"[1..] == "5" && "5"[1..] == [];
    }
    assert !AllDots("85") by {
      assert "85"[0] != '.';
    }
    assert '.' !in "85";
    NumeralExample("85.0", "850", 850);
    NumeralExample("85.1", "851", 851);
  }

  /** A two-digit numeral, a dot and one more digit. */
  lemma NumeralExample(g: string, digits: string, m: nat)
    requires |g| == 4 && IsDigit(g[0]) && IsDigit(g[1]) && g[2] == '.' && IsDigit(g[3])
    requires digits == [g[0], g[1], g[3]]
    requires m == DigitValue(g[0]) * 100 + DigitValue(g[1]) * 10 + DigitValue(g[3])
    ensures ParseNumeral(g) == Some(Decimal(m, 1))
  {
    assert g[3..][1..] == [];
    assert CountDots(g[3..]) == 0;
    assert g[2..][1..] == g[3..];
    assert CountDots(g[2..]) == 1;
    assert g[1..][1..] == g[2..];
    assert CountDots(g[1..]) == 1;
    assert CountDots(g) == 1;
    assert !AllDots(g) by {
      assert g[0] != '.';
    }
    assert '.' in g by {
      assert g[2] == '.';
    }
    assert FirstDot(g) == 2 by {
      assert g[1..][1..][0] == '.';
    }
    assert g[..2] + g[3..] == digits;
    assert digits[..2][..1][..0] == [];
    assert DigitsValue(digits[..1]) == DigitValue(g[0]);
    assert DigitsValue(digits[..2]) == DigitValue(g[0]) * 10 + DigitValue(g[1]);
    assert DigitsValue(digits) == m;
  }

  function Cpu(t: int, cpu: nat): Record {
    Record(t, "r1", Resources(Decimal(cpu, 0), Decimal(0, 0), Decimal(0, 0)))
  }

  function Pick(t: int, attempts: nat, successful: nat): Record {
    Record(t, "r1", Picks(attempts, successful))
  }

  /** CPU 95, 95, 10, 95, 95: the low reading resets the streak, so no alert;
      one more 95 makes three in a row and raises it. */
  lemma ResetBreaksStreak()
    ensures var rs := [Cpu(0, 95), Cpu(60, 95), Cpu(120, 10), Cpu(180, 95), Cpu(240, 95)];
      && RobotFold(rs).resStreak == 2
      && ResourceAlert !in RobotFold(rs).alerts
      && ResourceAlert in RobotFold(rs + [Cpu(300, 95)]).alerts
  {
    var a, b, c, d, e := Cpu(0, 95), Cpu(60, 95), Cpu(120, 10), Cpu(180, 95), Cpu(240, 95);
    var rs := [a, b, c, d, e];
    assert Above85(Decimal(95, 0)) && !Above85(Decimal(10, 0)) && !Above85(Decimal(0, 0));
    assert RobotFold([a]) == Robot(0, 1, 0, {});
    assert [a, b][..1] == [a];
    assert RobotFold([a, b]) == Robot(60, 2, 0, {});
    assert [a, b, c][..2] == [a, b];
    assert RobotFold([a, b, c]) == Robot(120, 0, 0, {});
    assert [a, b, c, d][..3] == [a, b, c];
    assert RobotFold([a, b, c, d]) == Robot(180, 1, 0, {});
    assert rs[..4] == [a, b, c, d];
    assert RobotFold(rs) == Robot(240, 2, 0, {});
    assert (rs + [Cpu(300, 95)])[..5] == rs;
  }

  /** Four failing pick reports raise nothing; the fifth raises the alert,
      although its text says "> 5"; an idle report (0 attempts) resets. */
  lemma FifthFailureAlerts()
    ensures var rs := [Pick(0, 3, 0), Pick(1, 2, 0), Pick(2, 1, 0), Pick(3, 4, 0)];
      && RobotFold(rs).pickStreak == 4
      && PickAlert !in RobotFold(rs).alerts
      && PickAlert in RobotFold(rs + [Pick(4, 1, 0)]).alerts
      && RobotFold(rs + [Pick(4, 0, 0)]).pickStreak == 0
  {
    var a, b, c, d := Pick(0, 3, 0), Pick(1, 2, 0), Pick(2, 1, 0), Pick(3, 4, 0);
    var rs := [a, b, c, d];
    assert RobotFold([a]) == Robot(0, 0, 1, {});
    assert [a, b][..1] == [a];
    assert RobotFold([a, b]) == Robot(1, 0, 2, {});
    assert [a, b, c][..2] == [a, b];
    assert RobotFold([a, b, c]) == Robot(2, 0, 3, {});
    assert rs[..3] == [a, b, c];
    assert RobotFold(rs) == Robot(3, 0, 4, {});
    assert (rs + [Pick(4, 1, 0)])[..4] == rs;
    assert (rs + [Pick(4, 0, 0)])[..4] == rs;
  }
}
