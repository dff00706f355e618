/** The per-entry parsing of `analyze_robot_logs`: the four-field
    `log_pattern`, the timestamp conversion, the case-insensitive component
    test and the `res_pattern` / `pick_pattern` searches in the message. */
module Parse {
  import opened Options
  import opened Text
  import opened Timestamps

  // ----- log_pattern: ^(\S+) (\S+) \S+ (\S+) (.*)$ -----

  /** The groups of `log_pattern`, with the ignored third token kept. */
  datatype Fields = Fields(stamp: string, robot: string, reserved: string, component: string, message: string)

  /** A non-empty run of non-space characters, what `\S+` matches. */
  predicate IsToken(t: string) {
    t != [] && forall k :: 0 <= k < |t| ==> !IsSpace(t[k])
  }

  predicate WellFormed(f: Fields) {
    IsToken(f.stamp) && IsToken(f.robot) && IsToken(f.reserved) && IsToken(f.component)
    && '\n' !in f.message
  }

  /** The entry text that carries the given fields, followed by `end`. */
  function Layout(f: Fields, end: string): string {
    f.stamp + " " + (f.robot + " " + (f.reserved + " " + (f.component + " " + (f.message + end))))
  }

  /** Where a run of non-space characters starting at `i` ends. */
  function TokenEnd(s: string, i: nat): (j: nat)
    requires i <= |s|
    ensures i <= j <= |s|
    ensures forall k :: i <= k < j ==> !IsSpace(s[k])
    ensures j == |s| || IsSpace(s[j])
    decreases |s| - i
  {
    if i < |s| && !IsSpace(s[i]) then TokenEnd(s, i + 1) else i
  }

  /** `(\S+) ` at the start of `s`: a non-empty token followed by a plain
      space, and the text after that space. */
  function Token(s: string): (r: Option<(string, string)>)
    ensures r.Some? ==> IsToken(r.value.0) && s == r.value.0 + " " + r.value.1
  {
    var j := TokenEnd(s, 0);
    if 0 < j < |s| && s[j] == ' ' then
      assert s == s[..j] + [s[j]] + s[j + 1..];
      Some((s[..j], s[j + 1..]))
    else None
  }

  /** `(.*)$` on the rest of the entry: `.` stops at a newline, and `$` also
      matches just before a newline that ends the text. */
  function MessageOf(rest: string): (r: Option<string>)
    ensures r.Some? ==> '\n' !in r.value && (rest == r.value + "" || rest == r.value + "\n")
  {
    if '\n' !in rest then
      assert rest == rest + "";
      Some(rest)
    else if rest[|rest| - 1] == '\n' && '\n' !in rest[..|rest| - 1] then
      assert rest == rest[..|rest| - 1] + "\n";
      Some(rest[..|rest| - 1])
    else None
  }

  /** `log_pattern.match(entry)`: the entry is the layout of its fields,
      possibly followed by one newline. */
  function ParseEntry(e: string): (r: Option<Fields>)
    ensures r.Some? ==> WellFormed(r.value) && (e == Layout(r.value, "") || e == Layout(r.value, "\n"))
  {
    match Token(e)
    case None => None
    case Some(t1) =>
      match Token(t1.1)
      case None => None
      case Some(t2) =>
        match Token(t2.1)
        case None => None
        case Some(t3) =>
          match Token(t3.1)
          case None => None
          case Some(t4) =>
            match MessageOf(t4.1)
            case None => None
            case Some(m) => Some(Fields(t1.0, t2.0, t3.0, t4.0, m))
  }

  /** A token placed at `i` and followed by a space is exactly what TokenEnd finds. */
  lemma {:induction false} TokenEndOf(s: string, i: nat, t: string)
    requires i + |t| < |s| && s[i..i + |t|] == t && IsSpace(s[i + |t|])
    requires forall k :: 0 <= k < |t| ==> !IsSpace(t[k])
    ensures TokenEnd(s, i) == i + |t|
    decreases |t|
  {
    if t != [] {
      assert s[i] == t[0];
      assert s[i + 1..i + 1 + |t[1..]|] == t[1..];
      TokenEndOf(s, i + 1, t[1..]);
    }
  }

  /** Token splits a token and a space off the front. */
  lemma TokenOf(t: string, rest: string)
    requires IsToken(t)
    ensures Token(t + " " + rest) == Some((t, rest))
  {
    var s := t + " " + rest;
    assert s[0..|t|] == t;
    TokenEndOf(s, 0, t);
    assert s[..|t|] == t && s[|t| + 1..] == rest;
  }

  /** Parsing undoes the layout: the fields of a well-formed layout (with or
      without a final newline) are found again. */
  lemma LayoutParses(f: Fields, nl: string)
    requires WellFormed(f) && (nl == "" || nl == "\n")
    ensures ParseEntry(Layout(f, nl)) == Some(f)
  {
    var r4 := f.message + nl;
    var r3 := f.component + " " + r4;
    var r2 := f.reserved + " " + r3;
    var r1 := f.robot + " " + r2;
    TokenOf(f.stamp, r1);
    TokenOf(f.robot, r2);
    TokenOf(f.reserved, r3);
    TokenOf(f.component, r4);
    MessageOfEnd(f.message, nl);
  }

  lemma MessageOfEnd(m: string, nl: string)
    requires '\n' !in m && (nl == "" || nl == "\n")
    ensures MessageOf(m + nl) == Some(m)
  {
    var r := m + nl;
    if nl == "" {
      assert r == m;
    } else {
      assert r[..|r| - 1] == m;
    }
  }

  /** An entry that starts with a space (a leading run of continuation
      lines) never matches `^(\S+) `. */
  lemma LeadingSpaceRejected(e: string)
    requires e != [] && e[0] == ' '
    ensures ParseEntry(e) == None
  {
    assert TokenEnd(e, 0) == 0;
  }

  // ----- Regular-expression search in the message -----

  /** The text after `lit`, when `s` starts with `lit`. */
  function Expect(s: string, lit: string): (r: Option<string>)
    ensures r.Some? ==> s == lit + r.value
  {
    if lit <= s then
      assert s == s[..|lit|] + s[|lit|..];
      Some(s[|lit|..])
    else None
  }

  lemma ExpectOf(lit: string, rest: string)
    ensures Expect(lit + rest, lit) == Some(rest)
  {
    assert lit <= lit + rest;
  }

  /** Where the longest run of characters satisfying `p` from `i` ends. */
  function SpanEnd(s: string, i: nat, p: char -> bool): (j: nat)
    requires i <= |s|
    ensures i <= j <= |s|
    ensures forall k :: i <= k < j ==> p(s[k])
    ensures j == |s| || !p(s[j])
    decreases |s| - i
  {
    if i < |s| && p(s[i]) then SpanEnd(s, i + 1, p) else i
  }

  /** Greedy `[...]+`-style run at the start of `s` and the text after it
      (no backtracking is needed: every group is followed by a character
      outside its class, or ends the pattern). */
  function Span(s: string, p: char -> bool): (r: (string, string))
    ensures s == r.0 + r.1
    ensures forall k :: 0 <= k < |r.0| ==> p(r.0[k])
    ensures r.1 == [] || !p(r.1[0])
  {
    var j := SpanEnd(s, 0, p);
    assert s == s[..j] + s[j..];
    (s[..j], s[j..])
  }

  /** A run followed by a character outside the class is what Span finds. */
  lemma SpanOf(g: string, rest: string, p: char -> bool)
    requires forall k :: 0 <= k < |g| ==> p(g[k])
    requires rest == [] || !p(rest[0])
    ensures Span(g + rest, p) == (g, rest)
  {
    var s := g + rest;
    assert s[0..|g|] == g;
    SpanEndOf(s, 0, g, p);
    assert s[..|g|] == g && s[|g|..] == rest;
  }

  lemma {:induction false} SpanEndOf(s: string, i: nat, g: string, p: char -> bool)
    requires i + |g| <= |s| && s[i..i + |g|] == g
    requires forall k :: 0 <= k < |g| ==> p(g[k])
    requires i + |g| == |s| || !p(s[i + |g|])
    ensures SpanEnd(s, i, p) == i + |g|
    decreases |g|
  {
    if g != [] {
      assert s[i] == g[0];
      assert s[i + 1..i + 1 + |g[1..]|] == g[1..];
      SpanEndOf(s, i + 1, g[1..], p);
    }
  }

  /** `re.search`: the match at the leftmost position where the pattern
      matches, if there is one. */
  function SearchFrom<T>(s: string, at: string -> Option<T>, i: nat): (r: Option<T>)
    requires i <= |s|
    ensures r.None? <==> forall k :: i <= k <= |s| ==> at(s[k..]).None?
    ensures r.Some? ==> exists k :: i <= k <= |s| && at(s[k..]) == r
                          && forall k' :: i <= k' < k ==> at(s[k'..]).None?
    decreases |s| - i
  {
    if at(s[i..]).Some? then at(s[i..])
    else if i == |s| then None
    else SearchFrom(s, at, i + 1)
  }

  /** `k` is the leftmost position of `s` where `at` matches. */
  predicate Leftmost<T>(s: string, at: string -> Option<T>, k: nat) {
    k <= |s| && at(s[k..]).Some? && forall k' :: 0 <= k' < k ==> at(s[k'..]).None?
  }

  /** The search from the start returns the match at the leftmost position. */
  lemma SearchIsLeftmost<T>(s: string, at: string -> Option<T>)
    ensures forall k: nat :: Leftmost(s, at, k) ==> SearchFrom(s, at, 0) == at(s[k..])
  {
    forall k: nat | Leftmost(s, at, k) ensures SearchFrom(s, at, 0) == at(s[k..]) {
      var k0 :| 0 <= k0 <= |s| && at(s[k0..]) == SearchFrom(s, at, 0)
                 && forall k' :: 0 <= k' < k0 ==> at(s[k'..]).None?;
      if k0 != k {
        assert k0 < k ==> at(s[k0..]).None?;
      }
    }
  }

  /** Whenever some position matches, there is a leftmost one. */
  lemma LeftmostExists<T>(s: string, at: string -> Option<T>, k: nat)
    requires k <= |s| && at(s[k..]).Some?
    ensures exists k0: nat :: k0 <= k && Leftmost(s, at, k0)
  {
    var r := SearchFrom(s, at, 0);
    var k0: nat :| k0 <= |s| && at(s[k0..]) == r && forall k' :: 0 <= k' < k0 ==> at(s[k'..]).None?;
    assert Leftmost(s, at, k0);
  }

  /** `[\d.]` */
  predicate IsNumeralChar(c: char) {
    IsDigit(c) || c == '.'
  }

  predicate IsNumeral(g: string) {
    g != [] && forall k :: 0 <= k < |g| ==> IsNumeralChar(g[k])
  }

  /** `res_pattern` matched at the start of `s`: its three `[\d.]+` groups. */
  function ResourceGroups(s: string): (r: Option<(string, string, string)>)
    ensures r.Some? ==> IsNumeral(r.value.0) && IsNumeral(r.value.1) && IsNumeral(r.value.2)
  {
    match Expect(s, "CPU: ")
    case None => None
    case Some(r0) =>
      var (g1, r1) := Span(r0, IsNumeralChar);
      if g1 == [] then None else
      match Expect(r1, "%, RAM: ")
      case None => None
      case Some(r2) =>
        var (g2, r3) := Span(r2, IsNumeralChar);
        if g2 == [] then None else
        match Expect(r3, "%, DISK: ")
        case None => None
        case Some(r4) =>
          var (g3, r5) := Span(r4, IsNumeralChar);
          if g3 == [] then None else
          match Expect(r5, "%")
          case None => None
          case Some(_) => Some((g1, g2, g3))
  }

  /** A text that starts with what `res_pattern` matches for the given
      groups, followed by `tail`. */
  function ResourceLayout(g1: string, g2: string, g3: string, tail: string): string {
    "CPU: " + (g1 + ("%, RAM: " + (g2 + ("%, DISK: " + (g3 + ("%" + tail))))))
  }

  /** `res_pattern` matches at the start of `s` with groups g1, g2, g3
      exactly when `s` starts with the CPU/RAM/DISK text of those numerals. */
  lemma ResourceGroupsIff(s: string, g1: string, g2: string, g3: string)
    ensures ResourceGroups(s) == Some((g1, g2, g3)) <==>
      IsNumeral(g1) && IsNumeral(g2) && IsNumeral(g3)
      && exists tail :: s == ResourceLayout(g1, g2, g3, tail)
  {
    if ResourceGroups(s) == Some((g1, g2, g3)) {
      var r0 := Expect(s, "CPU: ").value;
      var r2 := Expect(Span(r0, IsNumeralChar).1, "%, RAM: ").value;
      var r4 := Expect(Span(r2, IsNumeralChar).1, "%, DISK: ").value;
      var r6 := Expect(Span(r4, IsNumeralChar).1, "%").value;
      assert s == ResourceLayout(g1, g2, g3, r6);
    } else if IsNumeral(g1) && IsNumeral(g2) && IsNumeral(g3) {
      if tail :| s == ResourceLayout(g1, g2, g3, tail) {
        var r5 := "%" + tail;
        var r4 := g3 + r5;
        var r3 := "%, DISK: " + r4;
        var r2 := g2 + r3;
        var r1 := "%, RAM: " + r2;
        var r0 := g1 + r1;
        ExpectOf("CPU: ", r0);
        SpanOf(g1, r1, IsNumeralChar);
        ExpectOf("%, RAM: ", r2);
        SpanOf(g2, r3, IsNumeralChar);
        ExpectOf("%, DISK: ", r4);
        SpanOf(g3, r5, IsNumeralChar);
        ExpectOf("%", tail);
      }
    }
  }

  /** `pick_pattern` matched at the start of `s`: its two `\d+` groups. */
  function PickGroups(s: string): (r: Option<(string, string)>)
    ensures r.Some? ==> r.value.0 != [] && r.value.1 != [] && AllDigits(r.value.0) && AllDigits(r.value.1)
  {
    match Expect(s, "Attempts: ")
    case None => None
    case Some(r0) =>
      var (g1, r1) := Span(r0, IsDigit);
      if g1 == [] then None else
      match Expect(r1, ", Successful: ")
      case None => None
      case Some(r2) =>
        var (g2, _) := Span(r2, IsDigit);
        if g2 == [] then None else Some((g1, g2))
  }

  /** A text that starts with what `pick_pattern` matches for the given
      groups, followed by `tail`. */
  function PickLayout(g1: string, g2: string, tail: string): string {
    "Attempts: " + (g1 + (", Successful: " + (g2 + tail)))
  }

  /** `pick_pattern` matches at the start of `s` with groups g1, g2 exactly
      when `s` starts with the Attempts/Successful text of those numerals and
      the second numeral is not followed by another digit. */
  lemma PickGroupsIff(s: string, g1: string, g2: string)
    ensures PickGroups(s) == Some((g1, g2)) <==>
      g1 != [] && g2 != [] && AllDigits(g1) && AllDigits(g2)
      && exists tail :: s == PickLayout(g1, g2, tail) && (tail == [] || !IsDigit(tail[0]))
  {
    if PickGroups(s) == Some((g1, g2)) {
      var r0 := Expect(s, "Attempts: ").value;
      var r2 := Expect(Span(r0, IsDigit).1, ", Successful: ").value;
      var r3 := Span(r2, IsDigit).1;
      assert s == PickLayout(g1, g2, r3);
    } else if g1 != [] && g2 != [] && AllDigits(g1) && AllDigits(g2) {
      if tail :| s == PickLayout(g1, g2, tail) && (tail == [] || !IsDigit(tail[0])) {
        var r2 := g2 + tail;
        var r1 := ", Successful: " + r2;
        var r0 := g1 + r1;
        ExpectOf("Attempts: ", r0);
        SpanOf(g1, r1, IsDigit);
        ExpectOf(", Successful: ", r2);
        SpanOf(g2, tail, IsDigit);
      }
    }
  }

  // ----- float() and int() of the groups -----

  /** A decimal number `mantissa / 10^scale`, exact where Python has a float. */
  datatype Decimal = Decimal(mantissa: nat, scale: nat)

  function Value(d: Decimal): real {
    (d.mantissa as real) / (Pow10(d.scale) as real)
  }

  function CountDots(g: string): nat {
    if g == [] then 0 else CountDots(g[1..]) + (if g[0] == '.' then 1 else 0)
  }

  /** `float(g)` for a run of digits and dots: it succeeds when there is at
      most one dot and at least one digit ("5", "5.", ".5", "5.25"), and
      raises `ValueError` otherwise ("1.2.3", "."). A numeral without a dot
      is its integer; one written `whole.frac` is `whole + frac / 10^|frac|`,
      as a mantissa over a power of ten (`Decimal`, see DecimalValue). */
  function ParseNumeral(g: string): (r: Option<Decimal>)
    requires IsNumeral(g)
    ensures r.Some? <==> CountDots(g) <= 1 && exists k :: 0 <= k < |g| && IsDigit(g[k])
    ensures r.Some? && AllDigits(g) ==> r.value == Decimal(DigitsValue(g), 0)
    ensures r.Some? ==> forall whole, frac :: DotSplit(g, whole, frac) ==>
      r.value == Decimal(DigitsValue(whole) * Pow10(|frac|) + DigitsValue(frac), |frac|)
  {
    NumeralSplit(g);
    if CountDots(g) > 1 || AllDots(g) then None
    else if '.' in g then
      var p := FirstDot(g);
      NumeralSides(g, p);
      NumeralParts(g);
      Some(Decimal(DigitsValue(g[..p] + g[p + 1..]), |g| - p - 1))
    else
      NoDotParts(g);
      Some(Decimal(DigitsValue(g), 0))
  }

  /** The numeral `whole.frac` read off at its only dot. */
  lemma NumeralParts(g: string)
    requires IsNumeral(g) && '.' in g && CountDots(g) <= 1
    ensures AllDigits(g[..FirstDot(g)] + g[FirstDot(g) + 1..])
    ensures !AllDigits(g)
    ensures forall whole, frac :: DotSplit(g, whole, frac) ==>
      && |frac| == |g| - FirstDot(g) - 1
      && DigitsValue(g[..FirstDot(g)] + g[FirstDot(g) + 1..]) == DigitsValue(whole) * Pow10(|frac|) + DigitsValue(frac)
  {
    var p := FirstDot(g);
    NumeralSides(g, p);
    assert !IsDigit(g[p]);
    forall whole, frac | DotSplit(g, whole, frac)
      ensures |frac| == |g| - p - 1
      ensures DigitsValue(g[..p] + g[p + 1..]) == DigitsValue(whole) * Pow10(|frac|) + DigitsValue(frac)
    {
      DotAt(g, whole, frac);
    }
  }

  /** `g` is written `whole.frac` with digits on both sides. */
  predicate DotSplit(g: string, whole: string, frac: string) {
    AllDigits(whole) && AllDigits(frac) && g == whole + "." + frac
  }

  /** A numeral with one dot splits at that dot only. */
  lemma DotAt(g: string, whole: string, frac: string)
    requires '.' in g && CountDots(g) <= 1
    requires AllDigits(whole) && AllDigits(frac) && g == whole + "." + frac
    ensures var p := FirstDot(g);
      && |frac| == |g| - p - 1 && g[..p] + g[p + 1..] == whole + frac && AllDigits(whole + frac)
      && DigitsValue(whole + frac) == DigitsValue(whole) * Pow10(|frac|) + DigitsValue(frac)
  {
    DigitsAppend(whole, frac);
    var p, w := FirstDot(g), |whole|;
    assert g[w] == '.';
    CountDotsPositive(g, w);
    assert g[..w] == whole && g[w + 1..] == frac;
  }

  lemma NoDotParts(g: string)
    requires '.' !in g
    ensures forall whole, frac :: !DotSplit(g, whole, frac)
  {
  }

  /** The real number a Decimal stands for: the integer part and the
      fraction digits of `whole.frac`. */
  lemma DecimalValue(whole: nat, frac: nat, n: nat)
    ensures Value(Decimal(whole * Pow10(n) + frac, n)) == whole as real + (frac as real) / (Pow10(n) as real)
  {
    var p, w, f := Pow10(n) as real, whole as real, frac as real;
    assert ((whole * Pow10(n) + frac) as real) == w * p + f;
    RealShift(w, p, f);
  }

  lemma RealShift(w: real, p: real, f: real)
    requires p > 0.0
    ensures (w * p + f) / p == w + f / p
  {
    assert (w + f / p) * p == w * p + f;
  }

  function FirstDot(g: string): (p: nat)
    requires '.' in g
    ensures p < |g| && g[p] == '.'
  {
    if g[0] == '.' then 0 else FirstDot(g[1..]) + 1
  }

  predicate AllDots(g: string) {
    forall k :: 0 <= k < |g| ==> g[k] == '.'
  }

  lemma {:induction false} CountDotsPositive(g: string, p: nat)
    requires p < |g| && g[p] == '.'
    ensures CountDots(g) >= 1
    ensures CountDots(g) == 1 ==> forall k :: 0 <= k < |g| && k != p ==> g[k] != '.'
  {
    if p > 0 {
      CountDotsPositive(g[1..], p - 1);
      if CountDots(g) == 1 {
        assert g[0] != '.';
        forall k | 0 <= k < |g| && k != p ensures g[k] != '.' {
          if k > 0 {
            assert g[k] == g[1..][k - 1];
          }
        }
      }
    } else {
      CountDotsZero(g[1..]);
    }
  }

  lemma {:induction false} CountDotsZero(g: string)
    ensures CountDots(g) == 0 <==> '.' !in g
  {
    if g != [] {
      CountDotsZero(g[1..]);
      assert g == [g[0]] + g[1..];
    }
  }

  lemma NumeralSplit(g: string)
    requires IsNumeral(g)
    ensures !AllDots(g) <==> exists k :: 0 <= k < |g| && IsDigit(g[k])
    ensures '.' !in g ==> AllDigits(g)
  {
    CountDotsZero(g);
  }

  lemma NumeralSides(g: string, p: nat)
    requires IsNumeral(g) && p < |g| && g[p] == '.' && CountDots(g) <= 1
    ensures AllDigits(g[..p] + g[p + 1..])
  {
    CountDotsPositive(g, p);
    var h := g[..p] + g[p + 1..];
    forall k | 0 <= k < |h| ensures IsDigit(h[k]) {
      if k < p {
        assert h[k] == g[k];
      } else {
        assert h[k] == g[k + 1];
      }
    }
  }

  /** The strict threshold of `cpu > 85 or ram > 85 or disk > 85`, exactly. */
  predicate Above85(d: Decimal) {
    d.mantissa > 85 * Pow10(d.scale)
  }

  lemma Above85Value(d: Decimal)
    ensures Above85(d) <==> Value(d) > 85.0
  {
    var p := Pow10(d.scale);
    assert (85 * p) as real == 85.0 * (p as real);
    QuotientAbove(d.mantissa as real, p as real);
  }

  lemma QuotientAbove(m: real, p: real)
    requires p > 0.0
    ensures m / p > 85.0 <==> m > 85.0 * p
  {
    var q := m / p;
    assert q * p == m;
    if q > 85.0 {
      assert q * p > 85.0 * p;
    } else {
      assert q * p <= 85.0 * p;
    }
  }

  // ----- The reading carried by an entry -----

  /** What `res_pattern.search(msg)` followed by `map(float, ...)` gives, as
      written: no match, three numbers, or a `ValueError` that escapes (it is
      raised outside the `try`, so it ends the whole analysis). */
  datatype ResourceSearch = NoResourceMatch | Readings(cpu: Decimal, ram: Decimal, disk: Decimal) | FloatValueError

  function ResourceSearchAsWritten(msg: string): (r: ResourceSearch)
    ensures r.NoResourceMatch? <==> forall k :: 0 <= k <= |msg| ==> ResourceGroups(msg[k..]).None?
    ensures forall k: nat :: Leftmost(msg, ResourceGroups, k) ==>
      var g := ResourceGroups(msg[k..]).value;
      var c, ra, d := ParseNumeral(g.0), ParseNumeral(g.1), ParseNumeral(g.2);
      && (r.Readings? <==> c.Some? && ra.Some? && d.Some?)
      && (r.Readings? ==> c == Some(r.cpu) && ra == Some(r.ram) && d == Some(r.disk))
      && (r.FloatValueError? <==> c.None? || ra.None? || d.None?)
  {
    SearchIsLeftmost(msg, ResourceGroups);
    match SearchFrom(msg, ResourceGroups, 0)
    case None => NoResourceMatch
    case Some(g) =>
      var c, r, d := ParseNumeral(g.0), ParseNumeral(g.1), ParseNumeral(g.2);
      if c.Some? && r.Some? && d.Some? then Readings(c.value, r.value, d.value) else FloatValueError
  }

  /** As written, a CPU field with two dots makes `float()` raise outside
      the `try`, which ends the whole analysis. */
  lemma {:induction false} RepeatedDotAborts(g1: string, g2: string, g3: string, tail: string)
    requires IsNumeral(g1) && IsNumeral(g2) && IsNumeral(g3) && CountDots(g1) > 1
    ensures ResourceSearchAsWritten(ResourceLayout(g1, g2, g3, tail)) == FloatValueError
  {
    var msg := ResourceLayout(g1, g2, g3, tail);
    ResourceGroupsIff(msg, g1, g2, g3);
    assert msg[0..] == msg;
  }

  /** The concrete message "CPU: 1.2.3%, RAM: 1%, DISK: 1%". */
  lemma RepeatedDotExample()
    ensures ResourceSearchAsWritten("CPU: 1.2.3%, RAM: 1%, DISK: 1%") == FloatValueError
    ensures ResourceReadings("CPU: 1.2.3%, RAM: 1%, DISK: 1%") == None
  {
    assert "CPU: 1.2.3%, RAM: 1%, DISK: 1%" == ResourceLayout("1.2.3", "1", "1", "");
    assert CountDots("1.2.3") == 2;
    RepeatedDotAborts("1.2.3", "1", "1", "");
  }

  /** The readings used by the rest of the model: a `res_pattern` match whose
      numerals `float()` rejects counts as no reading, like no match at all. */
  function ResourceReadings(msg: string): (r: Option<(Decimal, Decimal, Decimal)>)
    ensures r.Some? <==> ResourceSearchAsWritten(msg).Readings?
    ensures r.Some? ==> var w := ResourceSearchAsWritten(msg); r.value == (w.cpu, w.ram, w.disk)
  {
    match ResourceSearchAsWritten(msg)
    case Readings(c, ra, d) => Some((c, ra, d))
    case _ => None
  }

  /** `pick_pattern.search(msg)` followed by `map(int, ...)`: no counts
      when no position matches, otherwise the values of the two digit
      groups at the leftmost match. */
  function PickCounts(msg: string): (r: Option<(nat, nat)>)
    ensures r.None? <==> forall k :: 0 <= k <= |msg| ==> PickGroups(msg[k..]).None?
    ensures forall k: nat :: Leftmost(msg, PickGroups, k) ==>
      var g := PickGroups(msg[k..]).value;
      r == Some((DigitsValue(g.0), DigitsValue(g.1)))
  {
    SearchIsLeftmost(msg, PickGroups);
    match SearchFrom(msg, PickGroups, 0)
    case None => None
    case Some(g) => Some((DigitsValue(g.0), DigitsValue(g.1)))
  }

  /** `str.upper()` on the characters whose upper case is a single ASCII
      letter: ASCII letters, dotless i and long s. A character that changes
      becomes a capital; every other character is kept as it is, which
      cannot make a component equal to an all-capital ASCII name. */
  function UpperChar(c: char): (u: char)
    ensures u != c <==> 'a' <= c <= 'z' || c == '\U{131}' || c == '\U{17f}'
    ensures u != c ==> 'A' <= u <= 'Z'
  {
    if 'a' <= c <= 'z' then (c as int - 32) as char
    else if c == '\U{131}' then 'I'
    else if c == '\U{17f}' then 'S'
    else c
  }

  /** `comp.upper() == name` for an upper-case ASCII `name`. */
  predicate ComponentIs(comp: string, name: string) {
    |comp| == |name| && forall k :: 0 <= k < |comp| ==> UpperChar(comp[k]) == name[k]
  }

  /** The characters whose upper case is the capital `u`: itself, its
      lower-case letter, and dotless i for I and long s for S. */
  predicate CaseVariant(c: char, u: char) {
    c == u || c as int == u as int + 32 || (u == 'I' && c == '\U{131}') || (u == 'S' && c == '\U{17f}')
  }

  predicate AllCapitals(name: string) {
    forall k :: 0 <= k < |name| ==> 'A' <= name[k] <= 'Z'
  }

  /** `comp.upper() == name` compares case-insensitively: it holds exactly
      when each character of `comp` is a case variant of the capital at the
      same place ("resources", "Resources", "RESOURCES", "reſources" all
      name RESOURCES). */
  lemma ComponentIsIff(comp: string, name: string)
    requires AllCapitals(name)
    ensures ComponentIs(comp, name) <==>
      |comp| == |name| && forall k :: 0 <= k < |comp| ==> CaseVariant(comp[k], name[k])
  {
    if |comp| == |name| {
      forall k | 0 <= k < |comp| ensures UpperChar(comp[k]) == name[k] <==> CaseVariant(comp[k], name[k]) {
        UpperCharIff(comp[k], name[k]);
      }
    }
  }

  lemma UpperCharIff(c: char, u: char)
    requires 'A' <= u <= 'Z'
    ensures UpperChar(c) == u <==> CaseVariant(c, u)
  {
  }

  datatype Reading =
    | Resources(cpu: Decimal, ram: Decimal, disk: Decimal)
    | Picks(attempts: nat, successful: nat)
    | NoReading

  /** The reading of a record: a RESOURCES record whose message holds the
      three percentages, a PICKS record whose message holds the two counts,
      and nothing for any other record. */
  function ReadingOf(component: string, message: string): (r: Reading)
    ensures r.Resources? <==> ComponentIs(component, "RESOURCES") && ResourceReadings(message).Some?
    ensures r.Resources? ==> ResourceReadings(message) == Some((r.cpu, r.ram, r.disk))
    ensures r.Picks? <==> ComponentIs(component, "PICKS") && PickCounts(message).Some?
    ensures r.Picks? ==> PickCounts(message) == Some((r.attempts, r.successful))
  {
    if ComponentIs(component, "RESOURCES") then
      match ResourceReadings(message)
      case Some(t) => Resources(t.0, t.1, t.2)
      case None => NoReading
    else if ComponentIs(component, "PICKS") then
      match PickCounts(message)
      case Some(t) => Picks(t.0, t.1)
      case None => NoReading
    else NoReading
  }

  /** An accepted log record. */
  datatype Record = Record(time: int, robot: string, reading: Reading)

  /** Everything the analysis loop takes from one entry: None when the entry
      does not match `log_pattern` or its timestamp does not parse. */
  function Classify(entry: string): (r: Option<Record>)
    ensures r.Some? <==> ParseEntry(entry).Some? && ParseTimestamp(ParseEntry(entry).value.stamp).Some?
    ensures r.Some? ==> var f := ParseEntry(entry).value;
      && r.value.time == ParseTimestamp(f.stamp).value
      && r.value.robot == f.robot
      && r.value.reading == ReadingOf(f.component, f.message)
  {
    match ParseEntry(entry)
    case None => None
    case Some(f) =>
      match ParseTimestamp(f.stamp)
      case None => None
      case Some(t) => Some(Record(t, f.robot, ReadingOf(f.component, f.message)))
  }
}
