/** The generator of nested MATLAB switches (get_theory_vector.py, write_matlab_file), and the meaning
    of the code that it emits. */
module MatlabTable {
  import opened Wrappers

  // ---------------------------------------------------------------------------
  // Numbers as decimal text
  // ---------------------------------------------------------------------------

  function DigitChar(d: nat): char
    requires d < 10
  {
    '0' + d as char
  }

  function DigitValue(c: char): int {
    c as int - '0' as int
  }

  /** The decimal digits of n, without leading zeros. */
  function Digits(n: nat): (s: string)
    ensures s != [] && forall k :: 0 <= k < |s| ==> '0' <= s[k] <= '9'
  {
    if n < 10 then [DigitChar(n)] else Digits(n / 10) + [DigitChar(n % 10)]
  }

  /** The last k decimal digits of n, with leading zeros. */
  function PaddedDigits(n: nat, k: nat): (s: string)
    ensures |s| == k && forall i :: 0 <= i < k ==> '0' <= s[i] <= '9'
  {
    if k == 0 then [] else PaddedDigits(n / 10, k - 1) + [DigitChar(n % 10)]
  }

  function ParseNat(s: string): int {
    if s == [] then 0 else 10 * ParseNat(s[..|s| - 1]) + DigitValue(s[|s| - 1])
  }

  lemma {:induction false} ParseDigits(n: nat)
    ensures ParseNat(Digits(n)) == n
  {
    if n >= 10 {
      ParseDigits(n / 10);
      assert Digits(n)[..|Digits(n)| - 1] == Digits(n / 10);
    } else {
      assert Digits(n)[..0] == [];
    }
  }

  function Pow10(k: nat): (p: nat)
    ensures p > 0
  {
    if k == 0 then 1 else 10 * Pow10(k - 1)
  }

  lemma TenthBelow(n: nat, p: nat)
    requires n < 10 * p
    ensures n / 10 < p
  {
  }

  lemma ParseSnoc(s: string, d: nat)
    requires d < 10
    ensures ParseNat(s + [DigitChar(d)]) == 10 * ParseNat(s) + d
  {
    assert (s + [DigitChar(d)])[..|s|] == s;
  }

  lemma PaddedStep(n: nat, k: nat)
    requires k > 0
    ensures ParseNat(PaddedDigits(n, k)) == 10 * ParseNat(PaddedDigits(n / 10, k - 1)) + n % 10
  {
    ParseSnoc(PaddedDigits(n / 10, k - 1), n % 10);
  }

  lemma ParsePaddedStep(n: nat, k: nat)
    requires k > 0 && ParseNat(PaddedDigits(n / 10, k - 1)) == n / 10
    ensures ParseNat(PaddedDigits(n, k)) == n
  {
    PaddedStep(n, k);
  }

  lemma {:induction false} ParsePadded(n: nat, k: nat)
    requires n < Pow10(k)
    ensures ParseNat(PaddedDigits(n, k)) == n
  {
    if k > 0 {
      TenthBelow(n, Pow10(k - 1));
      ParsePadded(n / 10, k - 1);
      ParsePaddedStep(n, k);
    }
  }

  /** The position of the first decimal point, or the length. */
  function PointAt(s: string): (k: nat)
    ensures k <= |s|
  {
    if s == [] || s[0] == '.' then 0 else 1 + PointAt(s[1..])
  }

  lemma {:induction false} PointAfter(a: string, b: string)
    requires forall k :: 0 <= k < |a| ==> a[k] != '.'
    requires b == [] || b[0] == '.'
    ensures PointAt(a + b) == |a|
    decreases |a|
  {
    if a != [] {
      assert (a + b)[1..] == a[1..] + b;
      PointAfter(a[1..], b);
    } else {
      assert a + b == b;
    }
  }

  function UnsignedValue(s: string): real {
    var k := PointAt(s);
    if k == |s| then ParseNat(s) as real else PointedValue(s[..k], s[k + 1..])
  }

  /** The value of the digits before and after a decimal point. */
  function PointedValue(a: string, b: string): real {
    ParseNat(a) as real + (ParseNat(b) as real) / (Pow10(|b|) as real)
  }

  /** The value of a number in MATLAB source text. */
  function NumberValue(s: string): real {
    if s != [] && s[0] == '-' then -UnsignedValue(s[1..]) else UnsignedValue(s)
  }

  function IntText(n: int): string {
    if n < 0 then ['-'] + Digits(-n) else Digits(n)
  }

  lemma IntTextValue(n: int)
    ensures NumberValue(IntText(n)) == n as real
  {
    var digits := Digits(if n < 0 then -n else n);
    ParseDigits(if n < 0 then -n else n);
    PointAfter(digits, []);
    assert digits + [] == digits;
    if n < 0 { assert IntText(n)[1..] == digits; }
  }

  /** A label has no leading zero. */
  lemma {:induction false} NoLeadingZero(n: nat)
    ensures n > 0 ==> Digits(n)[0] != '0'
    ensures n < 10 ==> |Digits(n)| == 1
  {
    if n >= 10 { NoLeadingZero(n / 10); }
  }

  /** Nearest integer, ties to even. */
  function RoundHalfEven(x: real): (r: int)
    ensures -0.5 <= r as real - x <= 0.5
    ensures x >= 0.0 ==> r >= 0
    ensures r as real - x == 0.5 || r as real - x == -0.5 ==> r % 2 == 0
  {
    var f := x.Floor;
    var d := x - f as real;
    if d < 0.5 || (d == 0.5 && f % 2 == 0) then f else f + 1
  }

  const MICRO: nat := 1000000

  /** A number of millionths, with six decimals. */
  function UnsignedText(m: nat): string {
    Digits(m / MICRO) + (['.'] + PaddedDigits(m % MICRO, 6))
  }

  function Micros(v: real): nat {
    RoundHalfEven((if v < 0.0 then -v else v) * 1000000.0)
  }

  /** Six decimals, as the format .6f prints them. */
  function FixedText(v: real): string {
    if v < 0.0 then ['-'] + UnsignedText(Micros(v)) else UnsignedText(Micros(v))
  }

  lemma PointSplits(a: string, b: string)
    requires forall k :: 0 <= k < |a| ==> a[k] != '.'
    ensures UnsignedValue(a + (['.'] + b)) == PointedValue(a, b)
  {
    var s := a + (['.'] + b);
    PointAfter(a, ['.'] + b);
    assert s[..|a|] == a && s[|a| + 1..] == b;
  }

  lemma UnsignedTextValue(m: nat)
    ensures UnsignedValue(UnsignedText(m)) == (m as real) / 1000000.0
    ensures UnsignedText(m) != [] && UnsignedText(m)[0] != '-'
  {
    var q, r := m / MICRO, m % MICRO;
    PointSplits(Digits(q), PaddedDigits(r, 6));
    SixZeros();
    ParseDigits(q);
    ParsePadded(r, 6);
    SplitMicro(m, q, r);
  }

  lemma SixZeros()
    ensures Pow10(6) == MICRO
  {
    assert Pow10(2) == 100;
    assert Pow10(4) == 10000;
  }

  lemma SplitMicro(m: nat, q: nat, r: nat)
    requires m == q * MICRO + r
    ensures q as real + (r as real) / 1000000.0 == (m as real) / 1000000.0
  {
    assert m as real == (q as real) * 1000000.0 + r as real;
  }

  lemma ScaledClose(u: real, m: real)
    requires -0.5 <= m - u * 1000000.0 <= 0.5
    ensures -0.0000005 <= m / 1000000.0 - u <= 0.0000005
  {
  }

  /** Printed values are within half a unit of the sixth decimal. */
  lemma FixedTextClose(v: real)
    ensures -0.0000005 <= NumberValue(FixedText(v)) - v <= 0.0000005
  {
    var m := Micros(v);
    UnsignedTextValue(m);
    ScaledClose(if v < 0.0 then -v else v, m as real);
    if v < 0.0 { assert FixedText(v)[1..] == UnsignedText(m); }
  }

  // ---------------------------------------------------------------------------
  // The emitted lines and their meaning
  // ---------------------------------------------------------------------------

  datatype Variable = SinrDb | McsIndex

  /** A line of the emitted function, without indentation and without the wording of messages. */
  datatype Line =
    | Inert                        // the function header, a comment or an empty line
    | RoundSinr                    // sinrDb = round(snrRcvd_avg);
    | AssignNaN                    // expectedBlerVector = [NaN, NaN, NaN, NaN];
    | Switch(on: Variable)
    | Case(text: string)
    | AssignVector(items: seq<string>)
    | Otherwise
    | Error
    | End

  datatype Vector = Undefined | NaNs | Values(items: seq<real>)

  datatype Outcome = Returned(vector: Vector) | Raised | Malformed

  datatype State = State(mcs: int, sinrDb: Option<int>, vector: Vector)

  /** Running executes lines. Seeking looks for the first matching case of the innermost open switch,
      Skipping for its end; depth counts the switches opened meanwhile. */
  datatype Mode = Running | Seeking(value: int, depth: nat) | Skipping(depth: nat)

  /** MATLAB's round: halves away from zero. */
  function Round(x: real): int {
    if x >= 0.0 then (x + 0.5).Floor else -((-x + 0.5).Floor)
  }

  /** v is nearest to x, and of two nearest integers the one away from zero. */
  predicate Nearest(x: real, v: int) {
    -0.5 <= v as real - x <= 0.5 && (v as real - x == 0.5 ==> x > 0.0) && (v as real - x == -0.5 ==> x < 0.0)
  }

  lemma RoundIsNearest(x: real, v: int)
    ensures Nearest(x, v) <==> v == Round(x)
  {
    assert Nearest(x, Round(x));
    if Nearest(x, v) {
      var u := Round(x);
      assert -1.0 <= (v - u) as real <= 1.0;
    }
  }

  /** One line either leads on to the next line in some mode, or ends the function. */
  datatype Turn = Go(mode: Mode, state: State) | Halt(outcome: Outcome)

  function RunLine(line: Line, snr: real, s: State): Turn {
    match line
    case Inert => Go(Running, s)
    case RoundSinr => Go(Running, s.(sinrDb := Some(Round(snr))))
    case AssignNaN => Go(Running, s.(vector := NaNs))
    case Switch(McsIndex) => Go(Seeking(s.mcs, 0), s)
    case Switch(SinrDb) => if s.sinrDb.Some? then Go(Seeking(s.sinrDb.value, 0), s) else Halt(Malformed)
    case Case(_) => Go(Skipping(0), s)
    case Otherwise => Go(Skipping(0), s)
    case AssignVector(items) => Go(Running, s.(vector := Values(NumberValues(items))))
    case Error => Halt(Raised)
    case End => Go(Running, s)
  }

  function NumberValues(items: seq<string>): (r: seq<real>)
    ensures |r| == |items| && forall i :: 0 <= i < |items| ==> r[i] == NumberValue(items[i])
  {
    seq(|items|, i requires 0 <= i < |items| => NumberValue(items[i]))
  }

  function SeekLine(line: Line, v: int, d: nat): Mode {
    match line
    case Switch(_) => Seeking(v, d + 1)
    case End => if d == 0 then Running else Seeking(v, d - 1)
    case Case(t) => if d == 0 && NumberValue(t) == v as real then Running else Seeking(v, d)
    case Otherwise => if d == 0 then Running else Seeking(v, d)
    case _ => Seeking(v, d)
  }

  function SkipLine(line: Line, d: nat): Mode {
    match line
    case Switch(_) => Skipping(d + 1)
    case End => if d == 0 then Running else Skipping(d - 1)
    case _ => Skipping(d)
  }

  function TurnOf(mode: Mode, line: Line, snr: real, s: State): Turn {
    match mode
    case Running => RunLine(line, snr, s)
    case Seeking(v, d) => Go(SeekLine(line, v, d), s)
    case Skipping(d) => Go(SkipLine(line, d), s)
  }

  datatype Lines = Nil | Cons(head: Line, tail: Lines)

  function Execute(mode: Mode, lines: Lines, snr: real, s: State): Outcome
    decreases lines
  {
    match lines
    case Nil => if mode == Running then Returned(s.vector) else Malformed
    case Cons(line, rest) =>
      var t := TurnOf(mode, line, snr, s);
      if t.Go? then Execute(t.mode, rest, snr, t.state) else t.outcome
  }

  // ---------------------------------------------------------------------------
  // What is emitted for a table
  // ---------------------------------------------------------------------------

  type Row = map<int, seq<real>>
  type Table = map<int, Row>

  lemma AnyOf<T>(s: set<T>) returns (x: T)
    requires s != {}
    ensures x in s
  {
    x :| x in s;
  }

  lemma {:induction false} LeastExists(keys: set<int>) returns (m: int)
    requires keys != {}
    ensures m in keys && forall k :: k in keys ==> m <= k
    decreases keys
  {
    var x := AnyOf(keys);
    var others := keys - {x};
    m := x;
    if others != {} {
      var n := LeastExists(others);
      if n < x { m := n; }
    }
    forall k | k in keys ensures m <= k { assert k == x || k in others; }
  }

  lemma LeastIsThere(keys: set<int>)
    requires keys != {}
    ensures exists m :: m in keys && forall k :: k in keys ==> m <= k
  {
    var m := LeastExists(keys);
  }

  function Least(keys: set<int>): (m: int)
    requires keys != {}
    ensures m in keys && forall k :: k in keys ==> m <= k
  {
    LeastIsThere(keys);
    var m :| m in keys && forall k :: k in keys ==> m <= k;
    m
  }

  /** The keys in increasing order. */
  function SortedKeys(keys: set<int>): (s: seq<int>)
    ensures forall k :: k in s <==> k in keys
    ensures forall i, j :: 0 <= i < j < |s| ==> s[i] < s[j]
  {
    if keys == {} then []
    else
      var m := Least(keys);
      [m] + SortedKeys(keys - {m})
  }

  function VectorText(vec: seq<real>): (r: seq<string>)
    ensures |r| == |vec| && forall i :: 0 <= i < |vec| ==> r[i] == FixedText(vec[i])
  {
    seq(|vec|, i requires 0 <= i < |vec| => FixedText(vec[i]))
  }

  predicate KeysIn<T>(s: seq<int>, m: map<int, T>) {
    forall i :: 0 <= i < |s| ==> s[i] in m
  }

  /** The cases of one inner switch from the i-th key on, then `rest`. */
  function Cases(row: Row, keys: seq<int>, i: nat, rest: Lines): Lines
    requires KeysIn(keys, row) && i <= |keys|
    decreases |keys| - i
  {
    if i == |keys| then rest
    else Cons(Case(IntText(keys[i])), Cons(AssignVector(VectorText(row[keys[i]])), Cases(row, keys, i + 1, rest)))
  }

  function InnerTail(rest: Lines): Lines {
    Cons(Otherwise, Cons(Error, Cons(End, Cons(Inert, rest))))
  }

  /** The inner switch of one row, after its case. */
  function InnerSwitch(row: Row, rest: Lines): Lines {
    Cons(Switch(McsIndex), Cases(row, SortedKeys(row.Keys), 0, InnerTail(rest)))
  }

  const OUTER_TAIL: Lines := Cons(Otherwise, Cons(Error, Cons(End, Cons(End, Nil))))

  /** The rows from the i-th SINR on, and the end of the function. */
  function Rows(table: Table, sinrs: seq<int>, i: nat): Lines
    requires KeysIn(sinrs, table) && i <= |sinrs|
    decreases |sinrs| - i
  {
    if i == |sinrs| then OUTER_TAIL
    else Cons(Case(IntText(sinrs[i])), InnerSwitch(table[sinrs[i]], Rows(table, sinrs, i + 1)))
  }

  function InertLines(n: nat, rest: Lines): Lines {
    if n == 0 then rest else Cons(Inert, InertLines(n - 1, rest))
  }

  /** Eight lines of header and comments, the two assignments, an empty line and the outer switch. */
  function Header(rest: Lines): Lines {
    InertLines(8, Cons(RoundSinr, Cons(AssignNaN, Cons(Inert, Cons(Switch(SinrDb), rest)))))
  }

  function Emit(table: Table): Lines {
    Header(Rows(table, SortedKeys(table.Keys), 0))
  }

  // ---------------------------------------------------------------------------
  // Executing the emitted lines
  // ---------------------------------------------------------------------------

  /** Modes in which the body of a whole inner switch is passed over. */
  predicate PassesOver(mode: Mode) {
    mode.Skipping? || (mode.Seeking? && mode.depth > 0)
  }

  /** The mode in which such a switch is left. */
  function Leave(mode: Mode): Mode
    requires PassesOver(mode)
  {
    match mode
    case Skipping(d) => if d == 0 then Running else Skipping(d - 1)
    case Seeking(v, d) => Seeking(v, d - 1)
  }

  lemma CasePassedOver(mode: Mode, row: Row, keys: seq<int>, i: nat, rest: Lines, snr: real, s: State)
    requires PassesOver(mode) && KeysIn(keys, row) && i < |keys|
    ensures Execute(mode, Cases(row, keys, i, InnerTail(rest)), snr, s) ==
            Execute(mode, Cases(row, keys, i + 1, InnerTail(rest)), snr, s)
  {
  }

  lemma {:induction false} CasesPassed(
    mode: Mode, row: Row, keys: seq<int>, i: nat, rest: Lines, snr: real, s: State)
    requires PassesOver(mode) && KeysIn(keys, row) && i <= |keys|
    ensures Execute(mode, Cases(row, keys, i, InnerTail(rest)), snr, s) == Execute(Leave(mode), rest, snr, s)
    decreases |keys| - i
  {
    if i < |keys| {
      CasePassedOver(mode, row, keys, i, rest, snr, s);
      CasesPassed(mode, row, keys, i + 1, rest, snr, s);
    } else {
      TailPassed(mode, rest, snr, s);
    }
  }

  lemma TailPassed(mode: Mode, rest: Lines, snr: real, s: State)
    requires PassesOver(mode)
    ensures Execute(mode, InnerTail(rest), snr, s) == Execute(Leave(mode), rest, snr, s)
  {
    var fromEnd := Cons(End, Cons(Inert, rest));
    assert Execute(mode, InnerTail(rest), snr, s) == Execute(mode, fromEnd, snr, s);
    assert Execute(mode, fromEnd, snr, s) == Execute(Leave(mode), Cons(Inert, rest), snr, s);
  }

  /** At a further case, or at the end of the cases, the rest of the switch is skipped. */
  lemma CaseStartsSkip(row: Row, keys: seq<int>, i: nat, rest: Lines, snr: real, s: State)
    requires KeysIn(keys, row) && i < |keys|
    ensures Execute(Running, Cases(row, keys, i, InnerTail(rest)), snr, s) ==
            Execute(Skipping(0), Cases(row, keys, i + 1, InnerTail(rest)), snr, s)
  {
    var after := Cases(row, keys, i + 1, InnerTail(rest));
    assert Execute(Skipping(0), Cons(AssignVector(VectorText(row[keys[i]])), after), snr, s) ==
           Execute(Skipping(0), after, snr, s);
  }

  lemma TailStartsSkip(rest: Lines, snr: real, s: State)
    ensures Execute(Running, InnerTail(rest), snr, s) == Execute(Running, rest, snr, s)
  {
    var fromEnd := Cons(End, Cons(Inert, rest));
    assert Execute(Running, InnerTail(rest), snr, s) == Execute(Skipping(0), fromEnd, snr, s);
    assert Execute(Skipping(0), fromEnd, snr, s) == Execute(Running, Cons(Inert, rest), snr, s);
  }

  /** When a case body ends, the rest of its switch is skipped: there is no fall-through. */
  lemma NoFallThrough(row: Row, keys: seq<int>, i: nat, rest: Lines, snr: real, s: State)
    requires KeysIn(keys, row) && i <= |keys|
    ensures Execute(Running, Cases(row, keys, i, InnerTail(rest)), snr, s) == Execute(Running, rest, snr, s)
  {
    if i < |keys| {
      CaseStartsSkip(row, keys, i, rest, snr, s);
      CasesPassed(Skipping(0), row, keys, i + 1, rest, snr, s);
    } else {
      TailStartsSkip(rest, snr, s);
    }
  }

  function Assigned(s: State, vec: seq<real>): State {
    s.(vector := Values(NumberValues(VectorText(vec))))
  }

  /** k is one of the keys from the i-th on. */
  predicate OccursFrom(keys: seq<int>, i: nat, k: int)
    requires i <= |keys|
    decreases |keys| - i
  {
    i < |keys| && (keys[i] == k || OccursFrom(keys, i + 1, k))
  }

  lemma {:induction false} OccursFromIs(keys: seq<int>, i: nat, k: int)
    requires i <= |keys|
    ensures OccursFrom(keys, i, k) <==> exists j :: i <= j < |keys| && keys[j] == k
    decreases |keys| - i
  {
    if i < |keys| { OccursFromIs(keys, i + 1, k); }
  }

  /** A case line, met while its switch looks for v, compares the value k of its text. */
  lemma CaseLine(text: string, k: int, after: Lines, v: int, snr: real, s: State)
    requires NumberValue(text) == k as real
    ensures Execute(Seeking(v, 0), Cons(Case(text), after), snr, s) ==
            Execute(if k == v then Running else Seeking(v, 0), after, snr, s)
  {
  }

  /** A case with the text sought is taken: its vector is assigned and the rest of the switch skipped. */
  lemma CaseTaken(row: Row, keys: seq<int>, i: nat, rest: Lines, snr: real, s: State)
    requires KeysIn(keys, row) && i < |keys| && keys[i] == s.mcs
    ensures Execute(Seeking(s.mcs, 0), Cases(row, keys, i, InnerTail(rest)), snr, s) ==
            Execute(Running, rest, snr, Assigned(s, row[s.mcs]))
  {
    var after := Cons(AssignVector(VectorText(row[keys[i]])), Cases(row, keys, i + 1, InnerTail(rest)));
    IntTextValue(keys[i]);
    CaseLine(IntText(keys[i]), keys[i], after, s.mcs, snr, s);
    NoFallThrough(row, keys, i + 1, rest, snr, Assigned(s, row[s.mcs]));
  }

  /** A case with another label is passed over. */
  lemma CasePassed(row: Row, keys: seq<int>, i: nat, rest: Lines, snr: real, s: State)
    requires KeysIn(keys, row) && i < |keys| && keys[i] != s.mcs
    ensures Execute(Seeking(s.mcs, 0), Cases(row, keys, i, InnerTail(rest)), snr, s) ==
            Execute(Seeking(s.mcs, 0), Cases(row, keys, i + 1, InnerTail(rest)), snr, s)
  {
    var after := Cons(AssignVector(VectorText(row[keys[i]])), Cases(row, keys, i + 1, InnerTail(rest)));
    IntTextValue(keys[i]);
    CaseLine(IntText(keys[i]), keys[i], after, s.mcs, snr, s);
  }

  /** The inner switch assigns the vector of the MCS, or raises the error. */
  lemma {:induction false} CasesSearched(row: Row, keys: seq<int>, i: nat, rest: Lines, snr: real, s: State)
    requires KeysIn(keys, row) && i <= |keys|
    ensures Execute(Seeking(s.mcs, 0), Cases(row, keys, i, InnerTail(rest)), snr, s) ==
            if s.mcs in row && OccursFrom(keys, i, s.mcs) then Execute(Running, rest, snr, Assigned(s, row[s.mcs]))
            else Raised
    decreases |keys| - i
  {
    if i < |keys| {
      if keys[i] == s.mcs {
        CaseTaken(row, keys, i, rest, snr, s);
      } else {
        CasePassed(row, keys, i, rest, snr, s);
        CasesSearched(row, keys, i + 1, rest, snr, s);
      }
    }
  }

  /** A whole inner switch is passed over. */
  lemma InnerPassed(mode: Mode, inside: Mode, row: Row, rest: Lines, snr: real, s: State)
    requires (mode == Skipping(0) && inside == Skipping(1)) ||
             (mode.Seeking? && mode.depth == 0 && inside == Seeking(mode.value, 1))
    ensures Execute(mode, InnerSwitch(row, rest), snr, s) == Execute(mode, rest, snr, s)
  {
    var body := Cases(row, SortedKeys(row.Keys), 0, InnerTail(rest));
    assert Execute(mode, Cons(Switch(McsIndex), body), snr, s) == Execute(inside, body, snr, s);
    CasesPassed(inside, row, SortedKeys(row.Keys), 0, rest, snr, s);
  }

  /** A row is passed over when another row was taken already, or when its SINR is not sought. */
  lemma RowPassed(mode: Mode, sinr: int, row: Row, rest: Lines, snr: real, s: State)
    requires mode == Skipping(0) || (mode.Seeking? && mode.depth == 0 && mode.value != sinr)
    ensures Execute(mode, Cons(Case(IntText(sinr)), InnerSwitch(row, rest)), snr, s) == Execute(mode, rest, snr, s)
  {
    var line := Case(IntText(sinr));
    IntTextValue(sinr);
    assert TurnOf(mode, line, snr, s) == Go(mode, s);
    ExecuteStep(mode, line, InnerSwitch(row, rest), snr, s);
    InnerPassed(mode, if mode.Skipping? then Skipping(1) else Seeking(mode.value, 1), row, rest, snr, s);
  }

  lemma ExecuteStep(mode: Mode, line: Line, rest: Lines, snr: real, s: State)
    requires TurnOf(mode, line, snr, s).Go?
    ensures Execute(mode, Cons(line, rest), snr, s) ==
            Execute(TurnOf(mode, line, snr, s).mode, rest, snr, TurnOf(mode, line, snr, s).state)
  {
  }

  lemma OuterTailSkipped(snr: real, s: State)
    ensures Execute(Skipping(0), Cons(Error, Cons(End, Cons(End, Nil))), snr, s) == Returned(s.vector)
    ensures Execute(Skipping(0), OUTER_TAIL, snr, s) == Returned(s.vector)
  {
    assert Execute(Running, Cons(End, Nil), snr, s) == Returned(s.vector);
    assert Execute(Skipping(0), Cons(End, Cons(End, Nil)), snr, s) == Returned(s.vector);
  }

  lemma {:induction false} RowsSkipped(table: Table, sinrs: seq<int>, i: nat, snr: real, s: State)
    requires KeysIn(sinrs, table) && i <= |sinrs|
    ensures Execute(Skipping(0), Rows(table, sinrs, i), snr, s) == Returned(s.vector)
    decreases |sinrs| - i
  {
    if i < |sinrs| {
      RowPassed(Skipping(0), sinrs[i], table[sinrs[i]], Rows(table, sinrs, i + 1), snr, s);
      RowsSkipped(table, sinrs, i + 1, snr, s);
    } else {
      OuterTailSkipped(snr, s);
    }
  }

  /** Once a row was executed, the function returns with the vector it assigned. */
  lemma AfterRow(table: Table, sinrs: seq<int>, i: nat, snr: real, s: State)
    requires KeysIn(sinrs, table) && i <= |sinrs|
    ensures Execute(Running, Rows(table, sinrs, i), snr, s) == Returned(s.vector)
  {
    if i < |sinrs| {
      var row, rest := table[sinrs[i]], Rows(table, sinrs, i + 1);
      assert Execute(Running, Rows(table, sinrs, i), snr, s) == Execute(Skipping(0), InnerSwitch(row, rest), snr, s);
      InnerPassed(Skipping(0), Skipping(1), row, rest, snr, s);
      RowsSkipped(table, sinrs, i + 1, snr, s);
    } else {
      OuterTailSkipped(snr, s);
    }
  }

  /** What the emitted function does for rounded SINR v and MCS m. */
  function Answer(table: Table, v: int, m: int): Outcome {
    if v in table && m in table[v] then Returned(Values(NumberValues(VectorText(table[v][m])))) else Raised
  }

  /** The row sought is entered, up to the cases of its inner switch. */
  lemma RowEntered(table: Table, sinrs: seq<int>, i: nat, snr: real, s: State)
    requires KeysIn(sinrs, table) && i < |sinrs|
    ensures var row := table[sinrs[i]];
      Execute(Seeking(sinrs[i], 0), Rows(table, sinrs, i), snr, s) ==
      Execute(Seeking(s.mcs, 0), Cases(row, SortedKeys(row.Keys), 0, InnerTail(Rows(table, sinrs, i + 1))), snr, s)
  {
    var v, row, rest := sinrs[i], table[sinrs[i]], Rows(table, sinrs, i + 1);
    IntTextValue(v);
    CaseLine(IntText(v), v, InnerSwitch(row, rest), v, snr, s);
    assert Execute(Running, InnerSwitch(row, rest), snr, s) ==
           Execute(Seeking(s.mcs, 0), Cases(row, SortedKeys(row.Keys), 0, InnerTail(rest)), snr, s);
  }

  lemma RowTaken(table: Table, sinrs: seq<int>, i: nat, snr: real, s: State)
    requires KeysIn(sinrs, table) && i < |sinrs|
    ensures Execute(Seeking(sinrs[i], 0), Rows(table, sinrs, i), snr, s) == Answer(table, sinrs[i], s.mcs)
  {
    var row, rest := table[sinrs[i]], Rows(table, sinrs, i + 1);
    var keys := SortedKeys(row.Keys);
    RowEntered(table, sinrs, i, snr, s);
    CasesSearched(row, keys, 0, rest, snr, s);
    OccursFromIs(keys, 0, s.mcs);
    if s.mcs in keys { AfterRow(table, sinrs, i + 1, snr, Assigned(s, row[s.mcs])); }
  }

  lemma OtherRowPassed(table: Table, sinrs: seq<int>, i: nat, v: int, snr: real, s: State)
    requires KeysIn(sinrs, table) && i < |sinrs| && sinrs[i] != v
    ensures Execute(Seeking(v, 0), Rows(table, sinrs, i), snr, s) ==
            Execute(Seeking(v, 0), Rows(table, sinrs, i + 1), snr, s)
  {
    RowPassed(Seeking(v, 0), sinrs[i], table[sinrs[i]], Rows(table, sinrs, i + 1), snr, s);
  }

  lemma {:induction false} RowsSearched(table: Table, sinrs: seq<int>, i: nat, v: int, snr: real, s: State)
    requires KeysIn(sinrs, table) && i <= |sinrs|
    ensures Execute(Seeking(v, 0), Rows(table, sinrs, i), snr, s) ==
            if OccursFrom(sinrs, i, v) then Answer(table, v, s.mcs) else Raised
    decreases |sinrs| - i
  {
    if i < |sinrs| {
      if sinrs[i] == v {
        RowTaken(table, sinrs, i, snr, s);
      } else {
        OtherRowPassed(table, sinrs, i, v, snr, s);
        RowsSearched(table, sinrs, i + 1, v, snr, s);
      }
    }
  }

  function Start(mcs: int): State {
    State(mcs, None, Undefined)
  }

  lemma {:induction false} InertRuns(n: nat, rest: Lines, snr: real, s: State)
    ensures Execute(Running, InertLines(n, rest), snr, s) == Execute(Running, rest, snr, s)
  {
    if n > 0 { InertRuns(n - 1, rest, snr, s); }
  }

  lemma HeaderRuns(rest: Lines, snr: real, mcs: int)
    ensures Execute(Running, Header(rest), snr, Start(mcs)) ==
            Execute(Seeking(Round(snr), 0), rest, snr, State(mcs, Some(Round(snr)), NaNs))
  {
    var outer := Cons(Switch(SinrDb), rest);
    InertRuns(8, Cons(RoundSinr, Cons(AssignNaN, Cons(Inert, outer))), snr, Start(mcs));
    var s1 := State(mcs, Some(Round(snr)), Undefined);
    var s2 := State(mcs, Some(Round(snr)), NaNs);
    assert Execute(Running, Cons(AssignNaN, Cons(Inert, outer)), snr, s1) == Execute(Running, outer, snr, s2);
  }

  /** MAIN: for every table, SINR and MCS the emitted function returns the table's vector, each value
      within half a unit of the sixth decimal, and raises an error when the pair is not in the table. */
  lemma EmittedCodeIsTable(table: Table, snr: real, mcs: int)
    ensures var r := Execute(Running, Emit(table), snr, Start(mcs));
      var v := Round(snr);
      if v in table && mcs in table[v] then
        r.Returned? && r.vector.Values? && |r.vector.items| == |table[v][mcs]| &&
        forall k :: 0 <= k < |table[v][mcs]| ==>
          -0.0000005 <= r.vector.items[k] - table[v][mcs][k] <= 0.0000005
      else r == Raised
  {
    var sinrs, v := SortedKeys(table.Keys), Round(snr);
    HeaderRuns(Rows(table, sinrs, 0), snr, mcs);
    RowsSearched(table, sinrs, 0, v, snr, State(mcs, Some(v), NaNs));
    OccursFromIs(sinrs, 0, v);
    if v in table && mcs in table[v] {
      forall k | 0 <= k < |table[v][mcs]| { FixedTextClose(table[v][mcs][k]); }
    }
  }

  /** MAIN: the same for the integer nearest to the SINR. */
  lemma EmittedCodeForNearest(table: Table, snr: real, v: int, mcs: int)
    requires Nearest(snr, v)
    ensures var r := Execute(Running, Emit(table), snr, Start(mcs));
      if v in table && mcs in table[v] then
        r.Returned? && r.vector.Values? && |r.vector.items| == |table[v][mcs]| &&
        forall k :: 0 <= k < |table[v][mcs]| ==>
          -0.0000005 <= r.vector.items[k] - table[v][mcs][k] <= 0.0000005
      else r == Raised
  {
    RoundIsNearest(snr, v);
    EmittedCodeIsTable(table, snr, mcs);
  }

  // ---------------------------------------------------------------------------
  // The order of the emitted cases
  // ---------------------------------------------------------------------------

  datatype Labels = NoLabel | Label(text: string, more: Labels)

  /** The labels of the cases that belong to the switches at one nesting depth. */
  function LabelsAt(lines: Lines, depth: int, at: int): Labels {
    match lines
    case Nil => NoLabel
    case Cons(line, rest) =>
      match line
      case Switch(_) => LabelsAt(rest, depth + 1, at)
      case End => LabelsAt(rest, depth - 1, at)
      case Case(t) => if depth == at then Label(t, LabelsAt(rest, depth, at)) else LabelsAt(rest, depth, at)
      case _ => LabelsAt(rest, depth, at)
  }

  /** The texts of the keys from the i-th on, and more labels. */
  function KeyLabels(keys: seq<int>, i: nat, more: Labels): Labels
    requires i <= |keys|
    decreases |keys| - i
  {
    if i == |keys| then more else Label(IntText(keys[i]), KeyLabels(keys, i + 1, more))
  }

  /** The texts of the MCS keys, row by row from the i-th on. */
  function RowKeyLabels(table: Table, sinrs: seq<int>, i: nat): Labels
    requires KeysIn(sinrs, table) && i <= |sinrs|
    decreases |sinrs| - i
  {
    if i == |sinrs| then NoLabel
    else KeyLabels(SortedKeys(table[sinrs[i]].Keys), 0, RowKeyLabels(table, sinrs, i + 1))
  }

  lemma CaseLines(text: string, items: seq<string>, after: Lines, depth: int, at: int)
    ensures LabelsAt(Cons(Case(text), Cons(AssignVector(items), after)), depth, at) ==
            if depth == at then Label(text, LabelsAt(after, depth, at)) else LabelsAt(after, depth, at)
  {
    assert LabelsAt(Cons(AssignVector(items), after), depth, at) == LabelsAt(after, depth, at);
  }

  lemma {:induction false} CaseLabels(row: Row, keys: seq<int>, i: nat, rest: Lines, at: int)
    requires KeysIn(keys, row) && i <= |keys|
    ensures LabelsAt(Cases(row, keys, i, rest), 2, at) ==
            if at == 2 then KeyLabels(keys, i, LabelsAt(rest, 2, at)) else LabelsAt(rest, 2, at)
    decreases |keys| - i
  {
    if i < |keys| {
      CaseLabels(row, keys, i + 1, rest, at);
      CaseLines(IntText(keys[i]), VectorText(row[keys[i]]), Cases(row, keys, i + 1, rest), 2, at);
    }
  }

  lemma TailLabels(rest: Lines, at: int)
    ensures LabelsAt(InnerTail(rest), 2, at) == LabelsAt(rest, 1, at)
  {
    var fromEnd := Cons(End, Cons(Inert, rest));
    assert LabelsAt(InnerTail(rest), 2, at) == LabelsAt(fromEnd, 2, at);
    assert LabelsAt(fromEnd, 2, at) == LabelsAt(Cons(Inert, rest), 1, at);
  }

  lemma OuterTailLabels(at: int)
    ensures LabelsAt(OUTER_TAIL, 1, at) == NoLabel
  {
    var fromEnd := Cons(End, Cons(End, Nil));
    assert LabelsAt(OUTER_TAIL, 1, at) == LabelsAt(fromEnd, 1, at);
    assert LabelsAt(fromEnd, 1, at) == LabelsAt(Cons(End, Nil), 0, at) == LabelsAt(Nil, -1, at);
  }

  lemma SwitchLines(text: string, inner: Lines, at: int)
    ensures LabelsAt(Cons(Case(text), Cons(Switch(McsIndex), inner)), 1, at) ==
            if at == 1 then Label(text, LabelsAt(inner, 2, at)) else LabelsAt(inner, 2, at)
  {
    assert LabelsAt(Cons(Switch(McsIndex), inner), 1, at) == LabelsAt(inner, 2, at);
  }

  lemma OuterStep(table: Table, sinrs: seq<int>, i: nat)
    requires KeysIn(sinrs, table) && i < |sinrs|
    ensures LabelsAt(Rows(table, sinrs, i), 1, 1) ==
            Label(IntText(sinrs[i]), LabelsAt(Rows(table, sinrs, i + 1), 1, 1))
  {
    var row, rest := table[sinrs[i]], Rows(table, sinrs, i + 1);
    SwitchLines(IntText(sinrs[i]), Cases(row, SortedKeys(row.Keys), 0, InnerTail(rest)), 1);
    CaseLabels(row, SortedKeys(row.Keys), 0, InnerTail(rest), 1);
    TailLabels(rest, 1);
  }

  lemma InnerStep(table: Table, sinrs: seq<int>, i: nat)
    requires KeysIn(sinrs, table) && i < |sinrs|
    ensures LabelsAt(Rows(table, sinrs, i), 1, 2) ==
            KeyLabels(SortedKeys(table[sinrs[i]].Keys), 0, LabelsAt(Rows(table, sinrs, i + 1), 1, 2))
  {
    var row, rest := table[sinrs[i]], Rows(table, sinrs, i + 1);
    SwitchLines(IntText(sinrs[i]), Cases(row, SortedKeys(row.Keys), 0, InnerTail(rest)), 2);
    CaseLabels(row, SortedKeys(row.Keys), 0, InnerTail(rest), 2);
    TailLabels(rest, 2);
  }

  lemma {:induction false} OuterLabels(table: Table, sinrs: seq<int>, i: nat)
    requires KeysIn(sinrs, table) && i <= |sinrs|
    ensures LabelsAt(Rows(table, sinrs, i), 1, 1) == KeyLabels(sinrs, i, NoLabel)
    decreases |sinrs| - i
  {
    if i < |sinrs| {
      OuterLabels(table, sinrs, i + 1);
      OuterStep(table, sinrs, i);
    } else {
      OuterTailLabels(1);
    }
  }

  lemma {:induction false} InnerLabels(table: Table, sinrs: seq<int>, i: nat)
    requires KeysIn(sinrs, table) && i <= |sinrs|
    ensures LabelsAt(Rows(table, sinrs, i), 1, 2) == RowKeyLabels(table, sinrs, i)
    decreases |sinrs| - i
  {
    if i < |sinrs| {
      InnerLabels(table, sinrs, i + 1);
      InnerStep(table, sinrs, i);
    } else {
      OuterTailLabels(2);
    }
  }

  lemma {:induction false} InertLabels(n: nat, rest: Lines, depth: int, at: int)
    ensures LabelsAt(InertLines(n, rest), depth, at) == LabelsAt(rest, depth, at)
  {
    if n > 0 { InertLabels(n - 1, rest, depth, at); }
  }

  lemma HeaderLabels(rest: Lines, at: int)
    ensures LabelsAt(Header(rest), 0, at) == LabelsAt(rest, 1, at)
  {
    var outer := Cons(Switch(SinrDb), rest);
    InertLabels(8, Cons(RoundSinr, Cons(AssignNaN, Cons(Inert, outer))), 0, at);
    assert LabelsAt(Cons(RoundSinr, Cons(AssignNaN, Cons(Inert, outer))), 0, at) ==
           LabelsAt(Cons(Inert, outer), 0, at) == LabelsAt(outer, 0, at);
  }

  /** The numbers grow from label to label. */
  predicate Rising(labels: Labels) {
    labels.Label? && labels.more.Label? ==>
      NumberValue(labels.text) < NumberValue(labels.more.text) && Rising(labels.more)
  }

  lemma {:induction false} KeysRise(keys: seq<int>, i: nat)
    requires i <= |keys| && forall k, l :: 0 <= k < l < |keys| ==> keys[k] < keys[l]
    ensures Rising(KeyLabels(keys, i, NoLabel))
    decreases |keys| - i
  {
    if i + 1 < |keys| {
      KeysRise(keys, i + 1);
      IntTextValue(keys[i]);
      IntTextValue(keys[i + 1]);
    }
  }

  /** MAIN: the outer cases are the SINR values in increasing order, and the inner ones those of each row
      in increasing order of the MCS. */
  lemma CasesInOrder(table: Table)
    ensures var sinrs := SortedKeys(table.Keys);
      LabelsAt(Emit(table), 0, 1) == KeyLabels(sinrs, 0, NoLabel) && Rising(LabelsAt(Emit(table), 0, 1)) &&
      LabelsAt(Emit(table), 0, 2) == RowKeyLabels(table, sinrs, 0)
    ensures forall v :: v in table ==> Rising(KeyLabels(SortedKeys(table[v].Keys), 0, NoLabel))
  {
    var sinrs := SortedKeys(table.Keys);
    HeaderLabels(Rows(table, sinrs, 0), 1);
    HeaderLabels(Rows(table, sinrs, 0), 2);
    OuterLabels(table, sinrs, 0);
    InnerLabels(table, sinrs, 0);
    KeysRise(sinrs, 0);
    forall v | v in table ensures Rising(KeyLabels(SortedKeys(table[v].Keys), 0, NoLabel)) {
      KeysRise(SortedKeys(table[v].Keys), 0);
    }
  }

  // ---------------------------------------------------------------------------
  // The generator
  // ---------------------------------------------------------------------------

  /** The emitted lines followed by `rest`. */
  function Before(lines: seq<Line>, rest: Lines): Lines {
    if lines == [] then rest else Before(lines[..|lines| - 1], Cons(lines[|lines| - 1], rest))
  }

  lemma BeforeSnoc(lines: seq<Line>, line: Line, rest: Lines)
    ensures Before(lines + [line], rest) == Before(lines, Cons(line, rest))
  {
    assert (lines + [line])[..|lines|] == lines;
  }

  method WriteMatlabFile(table: Table) returns (lines: seq<Line>)
    ensures Before(lines, Nil) == Emit(table)
  {
    var sinrs := SortedKeys(table.Keys);
    lines := WriteHeader(Rows(table, sinrs, 0));
    for i := 0 to |sinrs|
      invariant Before(lines, Rows(table, sinrs, i)) == Emit(table)
    {
      lines := WriteRow(lines, sinrs[i], table[sinrs[i]], Rows(table, sinrs, i + 1));
    }
    lines := Append(lines, Otherwise, Cons(Error, Cons(End, Cons(End, Nil))));
    lines := Append(lines, Error, Cons(End, Cons(End, Nil)));
    lines := Append(lines, End, Cons(End, Nil));
    lines := Append(lines, End, Nil);
  }

  /** lines.append, with what it means for the code that follows. */
  method Append(lines: seq<Line>, line: Line, ghost rest: Lines) returns (longer: seq<Line>)
    ensures longer == lines + [line] && Before(longer, rest) == Before(lines, Cons(line, rest))
  {
    BeforeSnoc(lines, line, rest);
    longer := lines + [line];
  }

  method WriteHeader(ghost rest: Lines) returns (lines: seq<Line>)
    ensures Before(lines, rest) == Header(rest)
  {
    ghost var code := Cons(RoundSinr, Cons(AssignNaN, Cons(Inert, Cons(Switch(SinrDb), rest))));
    lines := [];
    for n := 0 to 8
      invariant Before(lines, InertLines(8 - n, code)) == Header(rest)
    {
      lines := Append(lines, Inert, InertLines(8 - n - 1, code));
    }
    lines := Append(lines, RoundSinr, Cons(AssignNaN, Cons(Inert, Cons(Switch(SinrDb), rest))));
    lines := Append(lines, AssignNaN, Cons(Inert, Cons(Switch(SinrDb), rest)));
    lines := Append(lines, Inert, Cons(Switch(SinrDb), rest));
    lines := Append(lines, Switch(SinrDb), rest);
  }

  method WriteRow(before: seq<Line>, sinr: int, row: Row, ghost rest: Lines) returns (lines: seq<Line>)
    ensures Before(lines, rest) == Before(before, Cons(Case(IntText(sinr)), InnerSwitch(row, rest)))
  {
    var keys := SortedKeys(row.Keys);
    lines := Append(before, Case(IntText(sinr)), InnerSwitch(row, rest));
    lines := Append(lines, Switch(McsIndex), Cases(row, keys, 0, InnerTail(rest)));
    ghost var start := lines;
    for j := 0 to |keys|
      invariant Before(lines, Cases(row, keys, j, InnerTail(rest))) ==
                Before(start, Cases(row, keys, 0, InnerTail(rest)))
    {
      ghost var next := Cases(row, keys, j + 1, InnerTail(rest));
      lines := Append(lines, Case(IntText(keys[j])), Cons(AssignVector(VectorText(row[keys[j]])), next));
      lines := Append(lines, AssignVector(VectorText(row[keys[j]])), next);
    }
    lines := Append(lines, Otherwise, Cons(Error, Cons(End, Cons(Inert, rest))));
    lines := Append(lines, Error, Cons(End, Cons(Inert, rest)));
    lines := Append(lines, End, Cons(Inert, rest));
    lines := Append(lines, Inert, rest);
  }
}
