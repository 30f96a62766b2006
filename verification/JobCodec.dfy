/**
  * The text form of scheduled jobs: three characters of operation, the time block printed as a
  * zero-padded decimal index followed by one unit letter, and the key.
  */
module JobCodec {

  datatype Operation =
    | TimeSeriesRollup | TimeSeriesDelete | EventTypeDelete | CommandTypeDelete
    | ThingCommandDelete | ThingActionDelete | ThingEventDelete | ThingTimeSeriesDelete

  datatype Unit = Second | Minute | Hour | Day | Week | Month

  datatype TimeBlock = TimeBlock(index: int, unit: Unit)

  datatype Error = Panic | UnknownOperation | BadIndex | UnknownUnit

  datatype Result<T> = Ok(value: T) | Err(error: Error)

  datatype Content = Content(op: Operation, block: TimeBlock, key: string)

  function OperationCode(op: Operation): (s: string)
    ensures |s| == 3
  {
    match op
    case TimeSeriesRollup => "TSR"
    case TimeSeriesDelete => "TSD"
    case EventTypeDelete => "ETD"
    case CommandTypeDelete => "CTD"
    case ThingCommandDelete => "TCD"
    case ThingActionDelete => "TAD"
    case ThingEventDelete => "TED"
    case ThingTimeSeriesDelete => "TTD"
  }

  function OperationOf(s: string): (r: Result<Operation>)
    ensures r.Ok? ==> OperationCode(r.value) == s
  {
    if s == "TSR" then Ok(TimeSeriesRollup)
    else if s == "TSD" then Ok(TimeSeriesDelete)
    else if s == "ETD" then Ok(EventTypeDelete)
    else if s == "CTD" then Ok(CommandTypeDelete)
    else if s == "TCD" then Ok(ThingCommandDelete)
    else if s == "TAD" then Ok(ThingActionDelete)
    else if s == "TED" then Ok(ThingEventDelete)
    else if s == "TTD" then Ok(ThingTimeSeriesDelete)
    else Err(UnknownOperation)
  }

  lemma OperationRoundTrip(op: Operation)
    ensures OperationOf(OperationCode(op)) == Ok(op)
  {
    var s := OperationCode(op);
    var first, second := s[0], s[1];
    match op
    case TimeSeriesRollup => assert s == "TSR";
    case TimeSeriesDelete => assert s[2] == 'D' && s == "TSD"; assert "TSR"[2] == 'R';
    case EventTypeDelete => assert first == 'E' && "TSR"[0] == 'T' && "TSD"[0] == 'T';
    case CommandTypeDelete => assert first == 'C' && "TSR"[0] == 'T' && "TSD"[0] == 'T' && "ETD"[0] == 'E';
    case ThingCommandDelete =>
      assert second == 'C' && "TSR"[1] == 'S' && "TSD"[1] == 'S' && "ETD"[1] == 'T' && "CTD"[1] == 'T';
    case ThingActionDelete =>
      assert second == 'A' && "TSR"[1] == 'S' && "TSD"[1] == 'S' && "ETD"[1] == 'T' && "CTD"[1] == 'T' && "TCD"[1] == 'C';
    case ThingEventDelete =>
      assert second == 'E' && "TSR"[1] == 'S' && "TSD"[1] == 'S' && "ETD"[1] == 'T' && "CTD"[1] == 'T' && "TCD"[1] == 'C' && "TAD"[1] == 'A';
    case ThingTimeSeriesDelete =>
      assert first == 'T' && second == 'T' && "TSR"[1] == 'S' && "TSD"[1] == 'S' && "ETD"[0] == 'E' && "CTD"[0] == 'C' && "TCD"[1] == 'C'
          && "TAD"[1] == 'A' && "TED"[1] == 'E';
  }

  function UnitLetter(u: Unit): char {
    match u
    case Second => 's'
    case Minute => 'm'
    case Hour => 'h'
    case Day => 'd'
    case Week => 'W'
    case Month => 'M'
  }

  function UnitOf(c: char): Result<Unit> {
    match c
    case 's' => Ok(Second)
    case 'm' => Ok(Minute)
    case 'h' => Ok(Hour)
    case 'd' => Ok(Day)
    case 'W' => Ok(Week)
    case 'M' => Ok(Month)
    case _ => Err(UnknownUnit)
  }

  // ---------- decimal numbers ----------

  predicate IsDigit(c: char) { '0' <= c <= '9' }

  predicate AllDigits(s: string) { forall k :: 0 <= k < |s| ==> IsDigit(s[k]) }

  function DigitOf(d: nat): (c: char)
    requires d < 10
    ensures IsDigit(c) && c as int - '0' as int == d
  {
    '0' + d as char
  }

  /** The decimal numeral of `n`, without leading zeros. */
  function Numeral(n: nat): string {
    if n < 10 then [DigitOf(n)] else Numeral(n / 10) + [DigitOf(n % 10)]
  }

  function Zeros(n: nat): string { seq(n, _ => '0') }

  function Padded(s: string, width: nat): string {
    if |s| < width then Zeros(width - |s|) + s else s
  }

  /** Decimal printing in a field of ten characters; a minus sign takes one of them. */
  function Printed(index: int): string {
    if index < 0 then "-" + Padded(Numeral(-index), 9) else Padded(Numeral(index), 10)
  }

  /** The number a digit string denotes. */
  function Value(s: string): nat
    requires AllDigits(s)
  {
    if s == [] then 0 else Value(s[..|s| - 1]) * 10 + (s[|s| - 1] as int - '0' as int)
  }

  const MaxInt64 := 0x7FFF_FFFF_FFFF_FFFF

  /** Parsing in base ten: an optional sign, at least one digit, and a value that fits in 64 bits. */
  function ParseInt(s: string): Result<int> {
    var signed := s != [] && (s[0] == '-' || s[0] == '+');
    var digits := if signed then s[1..] else s;
    if digits == [] || !AllDigits(digits) then Err(BadIndex)
    else
      var v: int := if signed && s[0] == '-' then 0 - Value(digits) else Value(digits);
      if -MaxInt64 - 1 <= v <= MaxInt64 then Ok(v) else Err(BadIndex)
  }

  function Power(n: nat): nat { if n == 0 then 1 else 10 * Power(n - 1) }

  lemma {:induction false} NumeralValue(n: nat)
    ensures AllDigits(Numeral(n)) && Value(Numeral(n)) == n && Numeral(n) != []
    ensures n < 10 || Numeral(n)[0] != '0'
    ensures n > 0 ==> Numeral(n)[0] != '0'
    decreases n
  {
    var s := Numeral(n);
    if n < 10 {
      assert Value(s[..0]) == 0;
    } else {
      NumeralValue(n / 10);
      assert s[..|s| - 1] == Numeral(n / 10);
    }
  }

  lemma {:induction false} ValueBound(s: string)
    requires AllDigits(s)
    ensures Value(s) < Power(|s|)
    ensures s != [] && s[0] != '0' ==> Value(s) >= Power(|s| - 1)
  {
    if s != [] {
      ValueBound(s[..|s| - 1]);
      if |s| == 1 { assert Value(s[..0]) == 0; }
    }
  }

  lemma {:induction false} PowerGrows(m: nat, n: nat)
    requires m <= n
    ensures Power(m) <= Power(n)
    decreases n
  {
    if m < n { PowerGrows(m, n - 1); }
  }

  /** How many characters a numeral has. */
  lemma {:induction false} NumeralWidth(n: nat, w: nat)
    requires w > 0
    ensures |Numeral(n)| <= w <==> n < Power(w)
  {
    NumeralValue(n);
    ValueBound(Numeral(n));
    if |Numeral(n)| <= w { PowerGrows(|Numeral(n)|, w); }
    else { PowerGrows(w, |Numeral(n)| - 1); }
  }

  lemma {:induction false} ZerosValue(n: nat, s: string)
    requires AllDigits(s)
    ensures AllDigits(Zeros(n) + s) && Value(Zeros(n) + s) == Value(s)
    decreases n + |s|
  {
    var t := Zeros(n) + s;
    if s != [] {
      ZerosValue(n, s[..|s| - 1]);
      assert t[..|t| - 1] == Zeros(n) + s[..|s| - 1];
    } else if n > 0 {
      ZerosValue(n - 1, []);
      assert t[..|t| - 1] == Zeros(n - 1) + [];
    }
  }

  /** A digit string is determined by its value and its length. */
  lemma {:induction false} SameDigits(s: string, t: string)
    requires AllDigits(s) && AllDigits(t) && |s| == |t| && Value(s) == Value(t)
    ensures s == t
  {
    if s != [] {
      var a, b := s[..|s| - 1], t[..|t| - 1];
      var c, d := s[|s| - 1] as int - '0' as int, t[|t| - 1] as int - '0' as int;
      assert Value(a) * 10 + c == Value(b) * 10 + d;
      assert Value(a) == Value(b) && c == d;
      SameDigits(a, b);
      assert s == a + [s[|s| - 1]] && t == b + [t[|t| - 1]];
    }
  }

  lemma {:induction false} PaddedValue(n: nat, w: nat)
    ensures var p := Padded(Numeral(n), w);
            AllDigits(p) && Value(p) == n && p != [] && |p| >= w
            && (w > 0 ==> (|p| == w <==> n < Power(w)))
  {
    NumeralValue(n);
    if |Numeral(n)| < w { ZerosValue(w - |Numeral(n)|, Numeral(n)); }
    if w > 0 { NumeralWidth(n, w); }
  }

  lemma TenDigits()
    ensures Power(9) == 1000000000 && Power(10) == 10000000000
  {
    assert Power(3) == 1000;
    assert Power(6) == 1000000;
  }

  predicate Fits(index: int) { -999999999 <= index <= 9999999999 }

  /** An index is printed on ten characters exactly when it fits, and never on fewer. */
  lemma {:induction false} PrintedWidth(index: int)
    ensures |Printed(index)| >= 10
    ensures |Printed(index)| == 10 <==> Fits(index)
  {
    TenDigits();
    if index < 0 { PaddedValue(-index, 9); } else { PaddedValue(index, 10); }
  }

  /** The digits of a printed index. */
  function DigitsOf(s: string): string
    requires s != []
  {
    if s[0] == '-' || s[0] == '+' then s[1..] else s
  }

  lemma {:induction false} PrintedShape(index: int)
    ensures var s := Printed(index);
            && s != [] && DigitsOf(s) != [] && AllDigits(DigitsOf(s))
            && (s[0] == '-' <==> index < 0) && s[0] != '+'
            && Value(DigitsOf(s)) == if index < 0 then -index else index
  {
    var n: nat := if index < 0 then -index else index;
    var p := Padded(Numeral(n), if index < 0 then 9 else 10);
    PaddedValue(n, if index < 0 then 9 else 10);
    hide Padded, Numeral, Value;
    var s := Printed(index);
    assert IsDigit(p[0]);
    if index < 0 { assert s[1..] == p; } else { assert s == p; }
  }

  lemma {:induction false} PrintedParses(index: int)
    ensures ParseInt(Printed(index))
            == if -0x8000_0000_0000_0000 <= index <= 0x7FFF_FFFF_FFFF_FFFF then Ok(index) else Err(BadIndex)
  {
    PrintedShape(index);
    hide Printed, Value, AllDigits;
  }

  // ---------- jobs ----------

  function BlockText(tb: TimeBlock): string { Printed(tb.index) + [UnitLetter(tb.unit)] }

  function BlockOf(s: string): Result<TimeBlock> {
    if s == [] then Err(Panic)
    else
      var unit, index := s[|s| - 1], s[..|s| - 1];
      match ParseInt(index)
      case Err(e) => Err(e)
      case Ok(i) =>
        match UnitOf(unit)
        case Err(e) => Err(e)
        case Ok(u) => Ok(TimeBlock(i, u))
  }

  function JobText(j: Content): string { OperationCode(j.op) + BlockText(j.block) + j.key }

  function JobOf(s: string): Result<Content> {
    if |s| < 3 then Err(Panic)
    else
      match OperationOf(s[..3])
      case Err(e) => Err(e)
      case Ok(op) =>
        if |s| < 14 then Err(Panic)
        else
          match BlockOf(s[3..14])
          case Err(e) => Err(e)
          case Ok(tb) => Ok(Content(op, tb, s[14..]))
  }

  lemma {:induction false} BlockRoundTrip(tb: TimeBlock)
    requires -0x8000_0000_0000_0000 <= tb.index <= 0x7FFF_FFFF_FFFF_FFFF
    ensures BlockOf(BlockText(tb)) == Ok(tb)
  {
    PrintedParses(tb.index);
    var s := BlockText(tb);
    assert s[..|s| - 1] == Printed(tb.index);
  }

  /** Past the tenth character an index that does not fit has at least one more digit. */
  lemma {:induction false} Overflows(index: int)
    requires !Fits(index)
    ensures |Printed(index)| > 10 && IsDigit(Printed(index)[10])
    ensures ParseInt(Printed(index)[..10]).Ok?
  {
    PrintedWidth(index);
    PrintedShape(index);
    var s := Printed(index);
    var cut := s[..10];
    assert DigitsOf(cut) == DigitsOf(s)[..|DigitsOf(cut)|];
    assert IsDigit(s[10]) by { assert s[10] == DigitsOf(s)[if index < 0 then 9 else 10]; }
    hide Printed;
    assert AllDigits(DigitsOf(cut));
    ValueBound(DigitsOf(cut));
    PowerGrows(|DigitsOf(cut)|, 10);
    TenDigits();
    hide AllDigits, Value, Power;
  }

  /** A job is restored from its text, whatever its key, exactly when its index fits; otherwise the
      eleventh character is a digit and the text is refused for its unit. */
  lemma {:induction false} JobRoundTrip(j: Content)
    ensures JobOf(JobText(j)) == if Fits(j.block.index) then Ok(j) else Err(UnknownUnit)
  {
    var s := JobText(j);
    var code, printed := OperationCode(j.op), Printed(j.block.index);
    OperationRoundTrip(j.op);
    PrintedWidth(j.block.index);
    assert s[..3] == code;
    assert s[3..] == printed + [UnitLetter(j.block.unit)] + j.key;
    assert s[3..14] == (printed + [UnitLetter(j.block.unit)])[..11];
    if Fits(j.block.index) {
      BlockRoundTrip(j.block);
      assert s[3..14] == BlockText(j.block);
      assert s[14..] == j.key;
    } else {
      Overflows(j.block.index);
      assert s[3..14][..10] == printed[..10];
      assert s[3..14][10] == printed[10];
    }
  }

  /** The printed indexes that decoding accepts although printing never produces them. */
  predicate Irregular(s: string)
    requires |s| == 10
  {
    s[0] == '+' || s == "-000000000"
  }

  lemma {:induction false} ParsedReprints(s: string)
    requires |s| == 10 && ParseInt(s).Ok?
    ensures Printed(ParseInt(s).value) == s <==> !Irregular(s)
  {
    var v := ParseInt(s).value;
    var p := Printed(v);
    PrintedShape(v);
    PrintedWidth(v);
    ParsedFits(s);
    ValueOfZeros(DigitsOf(s));
    hide Printed;
    if s[0] == '-' && v == 0 {
      assert s == "-" + DigitsOf(s);
      assert Zeros(9) == "000000000" && "-" + "000000000" == "-000000000";
    } else if s[0] != '+' {
      SameDigits(DigitsOf(s), DigitsOf(p));
      hide AllDigits, Value;
      assert (s[0] == '-') == (p[0] == '-');
      assert s == if s[0] == '-' then "-" + DigitsOf(s) else DigitsOf(s);
      assert p == if s[0] == '-' then "-" + DigitsOf(p) else DigitsOf(p);
    }
  }

  lemma {:induction false} ValueOfZeros(s: string)
    requires AllDigits(s)
    ensures Value(s) == 0 <==> s == Zeros(|s|)
  {
    ZerosValue(|s|, []);
    assert Zeros(|s|) + [] == Zeros(|s|);
    if Value(s) == 0 { SameDigits(s, Zeros(|s|)); }
  }

  lemma {:induction false} UnitRoundTrip(c: char)
    ensures UnitOf(c).Ok? ==> UnitLetter(UnitOf(c).value) == c && !IsDigit(c) && c != '-'
  {
  }

  /** Every accepted text is the text of the job it denotes, unless it writes its index with a plus
      sign or as a negative zero. */
  lemma {:induction false} AcceptedReprints(s: string)
    requires JobOf(s).Ok?
    ensures Fits(JobOf(s).value.block.index)
    ensures JobText(JobOf(s).value) == s <==> !Irregular(s[3..13])
  {
    hide Printed, ParseInt, OperationCode, OperationOf, Irregular;
    var j := JobOf(s).value;
    var b := s[3..14];
    assert b[..10] == s[3..13] && b[10] == s[13];
    UnitRoundTrip(b[10]);
    ParsedReprints(b[..10]);
    ParsedFits(b[..10]);
    PrintedWidth(j.block.index);
    Assembled(s[..3], s[3..13], Printed(j.block.index), b[10], s[14..]);
    assert s == s[..3] + (s[3..13] + [s[13]]) + s[14..];
  }

  ghost predicate IsCode(s: string) { exists op :: OperationCode(op) == s }

  /** An optional sign and at least one digit, nothing else. */
  predicate Numeric(s: string) {
    if s != [] && (s[0] == '-' || s[0] == '+') then OnlyDigits(s[1..]) else OnlyDigits(s)
  }

  predicate OnlyDigits(s: string) { s != [] && forall k :: 0 <= k < |s| ==> '0' <= s[k] <= '9' }

  lemma {:induction false} ParsesNumeric(s: string)
    requires |s| == 10
    ensures ParseInt(s).Ok? <==> Numeric(s)
    ensures ParseInt(s).Err? ==> ParseInt(s).error == BadIndex
  {
    if Numeric(s) {
      var digits := if s[0] == '-' || s[0] == '+' then s[1..] else s;
      assert AllDigits(digits);
      ValueBound(digits);
      PowerGrows(|digits|, 10);
      TenDigits();
      hide AllDigits, Value, Power;
    }
  }

  /** Which texts are refused, and why; what is cut too short makes the decoder panic. */
  lemma {:induction false} JobRefused(s: string)
    ensures JobOf(s) == Err(Panic) <==> |s| < 3 || (|s| < 14 && IsCode(s[..3]))
    ensures JobOf(s) == Err(UnknownOperation) <==> |s| >= 3 && !IsCode(s[..3])
    ensures JobOf(s) == Err(BadIndex) <==> |s| >= 14 && IsCode(s[..3]) && !Numeric(s[3..13])
    ensures JobOf(s) == Err(UnknownUnit) <==> |s| >= 14 && IsCode(s[..3]) && Numeric(s[3..13]) && s[13] !in {'s', 'm', 'h', 'd', 'W', 'M'}
  {
    hide ParseInt, Numeric, OperationCode, OperationOf;
    if |s| >= 3 {
      CodeKnown(s[..3]);
      if |s| >= 14 {
        assert s[3..14][..10] == s[3..13] && s[3..14][10] == s[13];
        ParsesNumeric(s[3..13]);
      }
    }
  }

  lemma {:induction false} CodeKnown(c: string)
    ensures if IsCode(c) then OperationOf(c).Ok? else OperationOf(c) == Err(UnknownOperation)
  {
    if IsCode(c) { var op :| OperationCode(op) == c; OperationRoundTrip(op); }
  }

  lemma {:induction false} Assembled(code: string, p: string, q: string, unit: char, key: string)
    requires |p| == |q|
    ensures code + (p + [unit]) + key == code + (q + [unit]) + key <==> p == q
  {
    var s, t := code + (p + [unit]) + key, code + (q + [unit]) + key;
    assert s[|code|..|code| + |p|] == p && t[|code|..|code| + |q|] == q;
  }

  lemma {:induction false} ParsedFits(s: string)
    requires |s| == 10 && ParseInt(s).Ok?
    ensures Fits(ParseInt(s).value)
  {
    var signed := s[0] == '-' || s[0] == '+';
    ValueBound(if signed then s[1..] else s);
    TenDigits();
  }

  // ---------- the cache key ----------

  function CacheKey(tb: TimeBlock, key: string): string { BlockText(tb) + key }

  lemma {:induction false} PrintedPlain(index: int)
    ensures var s := Printed(index); forall k :: 0 <= k < |s| ==> IsDigit(s[k]) || s[k] == '-'
  {
    PrintedShape(index);
    var s := Printed(index);
    hide Printed;
    assert s == if s[0] == '-' then "-" + DigitsOf(s) else DigitsOf(s);
  }

  lemma {:induction false} PrintedInjective(i: int, j: int)
    requires Printed(i) == Printed(j)
    ensures i == j
  {
    PrintedShape(i);
    PrintedShape(j);
    hide Printed, Value, AllDigits;
  }

  /** The letter ends the index: no printed index goes on past it. */
  lemma {:induction false} LetterEndsIndex(a: TimeBlock, k: string, b: TimeBlock, l: string)
    requires CacheKey(a, k) == CacheKey(b, l)
    ensures |Printed(a.index)| >= |Printed(b.index)|
  {
    var p, q := Printed(a.index), Printed(b.index);
    var s := CacheKey(a, k);
    PrintedPlain(b.index);
    hide Printed;
    assert s[|p|] == UnitLetter(a.unit);
    assert q == s[..|q|];
    assert forall i :: 0 <= i < |q| ==> s[i] == q[i];
  }

  /** No two (block, key) pairs share a cache key, even when an index does not fit. */
  lemma {:induction false} CacheKeyInjective(a: TimeBlock, k: string, b: TimeBlock, l: string)
    requires CacheKey(a, k) == CacheKey(b, l)
    ensures a == b && k == l
  {
    var p, q := Printed(a.index), Printed(b.index);
    var s := CacheKey(a, k);
    LetterEndsIndex(a, k, b, l);
    LetterEndsIndex(b, l, a, k);
    assert p == s[..|p|] && q == s[..|q|];
    PrintedInjective(a.index, b.index);
    hide Printed;
    assert s[|p|] == UnitLetter(a.unit) && s[|q|] == UnitLetter(b.unit);
    assert k == s[|p| + 1..] && l == s[|q| + 1..];
  }
}
