/** Reading utime and stime out of a line of /proc/self/task/<tid>/stat, with the extraction
    rules of C++ streams. */
module StatLine {
  import opened Options
  import opened Words

  const LONG_LIMIT: int := 0x8000_0000_0000_0000

  predicate IsSpace(c: char) {
    c == ' ' || c == '\t' || c == '\n' || c == '\r' || c == '\U{000B}' || c == '\U{000C}'
  }

  predicate IsDigit(c: char) {
    '0' <= c <= '9'
  }

  // ----- extraction -----

  function SkipSpaces(s: string): string {
    if s != "" && IsSpace(s[0]) then SkipSpaces(s[1..]) else s
  }

  function WordLength(s: string): (n: nat)
    ensures n <= |s|
  {
    if s != "" && !IsSpace(s[0]) then 1 + WordLength(s[1..]) else 0
  }

  function DigitsLength(s: string): (n: nat)
    ensures n <= |s|
    ensures forall i :: 0 <= i < n ==> IsDigit(s[i])
  {
    if s != "" && IsDigit(s[0]) then 1 + DigitsLength(s[1..]) else 0
  }

  function DigitValue(c: char): nat
    requires IsDigit(c)
  {
    c as int - '0' as int
  }

  function NumberOf(digits: string): nat
    requires forall i :: 0 <= i < |digits| ==> IsDigit(digits[i])
  {
    if digits == "" then 0
    else 10 * NumberOf(digits[..|digits| - 1]) + DigitValue(digits[|digits| - 1])
  }

  /** What an extraction leaves: a value and the rest of the stream. */
  datatype Read<+T> = Read(value: T, rest: string)

  /** `>> std::string` */
  function ReadWord(s: string): Option<Read<string>> {
    var t := SkipSpaces(s);
    if t == "" then None else Some(Read(t[..WordLength(t)], t[WordLength(t)..]))
  }

  /** A longest non-empty run of digits. */
  function ReadDigits(s: string): Option<Read<nat>> {
    var n := DigitsLength(s);
    if n == 0 then None else Some(Read(NumberOf(s[..n]), s[n..]))
  }

  datatype Magnitude = Magnitude(negative: bool, value: nat)

  /** An optional sign and digits. */
  function ReadMagnitude(s: string): Option<Read<Magnitude>> {
    var t := SkipSpaces(s);
    var signed := t != "" && (t[0] == '-' || t[0] == '+');
    match ReadDigits(if signed then t[1..] else t)
    case None => None
    case Some(Read(n, rest)) => Some(Read(Magnitude(signed && t[0] == '-', n), rest))
  }

  /** `>> long`: fails outside the range of the type. */
  function ReadLong(s: string): Option<Read<int>> {
    match ReadMagnitude(s)
    case None => None
    case Some(Read(m, rest)) =>
      if m.negative then (if m.value <= LONG_LIMIT then Some(Read(0 - m.value as int, rest)) else None)
      else if m.value < LONG_LIMIT then Some(Read(m.value, rest)) else None
  }

  /** `>> unsigned long`, and `std::stoull`: a minus sign wraps around. */
  function ReadUnsigned(s: string): Option<Read<nat>> {
    match ReadMagnitude(s)
    case None => None
    case Some(Read(m, rest)) =>
      if m.value >= WORD then None
      else Some(Read(if m.negative then Wrap(WORD - m.value) else m.value, rest))
  }

  function ReadLongs(s: string, n: nat): Option<Read<seq<int>>>
    decreases n
  {
    if n == 0 then Some(Read([], s))
    else match ReadLong(s)
      case None => None
      case Some(Read(x, rest)) =>
        match ReadLongs(rest, n - 1)
        case None => None
        case Some(Read(xs, end)) => Some(Read([x] + xs, end))
  }

  function ReadUnsigneds(s: string, n: nat): (r: Option<Read<seq<nat>>>)
    ensures r.Some? ==> |r.value.value| == n
    decreases n
  {
    if n == 0 then Some(Read([], s))
    else match ReadUnsigned(s)
      case None => None
      case Some(Read(x, rest)) =>
        match ReadUnsigneds(rest, n - 1)
        case None => None
        case Some(Read(xs, end)) => Some(Read([x] + xs, end))
  }

  // ----- the line -----

  function FindLast(s: string, c: char): Option<nat> {
    if s == "" then None
    else if s[|s| - 1] == c then Some(|s| - 1)
    else FindLast(s[..|s| - 1], c)
  }

  datatype Times = Times(utime: nat, stime: nat)

  /** The state, five signed fields (ppid to tpgid) and seven unsigned ones (flags to stime). */
  function ParseFields(s: string): Option<Times> {
    match ReadWord(s)
    case None => None
    case Some(Read(_, r1)) =>
      match ReadLongs(r1, 5)
      case None => None
      case Some(Read(_, r2)) =>
        match ReadUnsigneds(r2, 7)
        case None => None
        case Some(Read(u, _)) => Some(Times(u[5], u[6]))
  }

  /** The fields after the last closing parenthesis and one more character. */
  function ParseStat(line: string): Option<Times> {
    match FindLast(line, ')')
    case None => None
    case Some(rparen) => if rparen + 2 >= |line| then None else ParseFields(line[rparen + 2..])
  }

  // ----- how the kernel prints it -----

  function Decimal(n: nat): string {
    if n < 10 then [('0' as int + n) as char] else Decimal(n / 10) + [('0' as int + n % 10) as char]
  }

  function DecimalInt(x: int): string {
    if x < 0 then "-" + Decimal(-x) else Decimal(x)
  }

  function PrintLongs(xs: seq<int>): string {
    if xs == [] then "" else [' '] + DecimalInt(xs[0]) + PrintLongs(xs[1..])
  }

  function PrintUnsigneds(xs: seq<nat>): string {
    if xs == [] then "" else [' '] + Decimal(xs[0]) + PrintUnsigneds(xs[1..])
  }

  /** `comm` is the thread's name as it is, and `tail` the fields after stime. */
  function PrintStat(pid: nat, comm: string, state: char, longs: seq<int>, unsigneds: seq<nat>, tail: string): string {
    Decimal(pid) + " (" + comm + ") " + [state] + PrintLongs(longs) + PrintUnsigneds(unsigneds) + tail
  }

  // ----- round trips -----

  predicate EndsNumber(rest: string) {
    rest == "" || !IsDigit(rest[0])
  }

  lemma {:induction false} DecimalReadsBack(n: nat)
    ensures forall i :: 0 <= i < |Decimal(n)| ==> IsDigit(Decimal(n)[i])
    ensures NumberOf(Decimal(n)) == n && |Decimal(n)| > 0
  {
    if n >= 10 {
      DecimalReadsBack(n / 10);
      assert Decimal(n)[..|Decimal(n)| - 1] == Decimal(n / 10);
    } else {
      assert Decimal(n)[..0] == "";
    }
  }

  lemma {:induction false} DigitsStop(digits: string, rest: string)
    requires forall i :: 0 <= i < |digits| ==> IsDigit(digits[i])
    requires EndsNumber(rest)
    ensures DigitsLength(digits + rest) == |digits|
  {
    if digits == "" {
      assert digits + rest == rest;
    } else {
      assert (digits + rest)[1..] == digits[1..] + rest;
      DigitsStop(digits[1..], rest);
    }
  }

  lemma DigitsReadBack(n: nat, rest: string)
    requires EndsNumber(rest)
    ensures ReadDigits(Decimal(n) + rest) == Some(Read(n, rest))
  {
    DecimalReadsBack(n);
    DigitsStop(Decimal(n), rest);
    var u := Decimal(n) + rest;
    assert u[..|Decimal(n)|] == Decimal(n) && u[|Decimal(n)|..] == rest;
  }

  lemma SkipsOneSpace(t: string)
    requires t != "" && !IsSpace(t[0])
    ensures SkipSpaces([' '] + t) == t
  {
    assert ([' '] + t)[1..] == t;
  }

  lemma PositiveReadsBack(n: nat, rest: string)
    requires EndsNumber(rest)
    ensures ReadMagnitude([' '] + (Decimal(n) + rest)) == Some(Read(Magnitude(false, n), rest))
  {
    var t := Decimal(n) + rest;
    DecimalReadsBack(n);
    assert t[0] == Decimal(n)[0] && IsDigit(t[0]);
    SkipsOneSpace(t);
    DigitsReadBack(n, rest);
  }

  lemma NegativeReadsBack(n: nat, rest: string)
    requires EndsNumber(rest)
    ensures ReadMagnitude([' '] + (['-'] + (Decimal(n) + rest))) == Some(Read(Magnitude(true, n), rest))
  {
    var t := ['-'] + (Decimal(n) + rest);
    assert t[0] == '-' && t[1..] == Decimal(n) + rest;
    SkipsOneSpace(t);
    DigitsReadBack(n, rest);
  }

  predicate FitsLong(x: int) {
    -0x8000_0000_0000_0000 <= x < 0x8000_0000_0000_0000
  }

  predicate FitsUnsigned(x: nat) {
    x < 0x1_0000_0000_0000_0000
  }

  predicate AllFitLong(xs: seq<int>) {
    xs == [] || (FitsLong(xs[0]) && AllFitLong(xs[1..]))
  }

  predicate AllFitUnsigned(xs: seq<nat>) {
    xs == [] || (FitsUnsigned(xs[0]) && AllFitUnsigned(xs[1..]))
  }

  lemma NegativeLongReadsBack(n: nat, rest: string)
    requires 0 < n && EndsNumber(rest)
    ensures ReadLong([' '] + ("-" + Decimal(n)) + rest) ==
            if FitsLong(0 - n as int) then Some(Read(0 - n as int, rest)) else None
  {
    NegativeReadsBack(n, rest);
    assert [' '] + ("-" + Decimal(n)) + rest == [' '] + (['-'] + (Decimal(n) + rest));
  }

  lemma PositiveLongReadsBack(n: nat, rest: string)
    requires EndsNumber(rest)
    ensures ReadLong([' '] + Decimal(n) + rest) == if FitsLong(n) then Some(Read(n, rest)) else None
  {
    PositiveReadsBack(n, rest);
    assert [' '] + Decimal(n) + rest == [' '] + (Decimal(n) + rest);
  }

  lemma LongReadsBack(x: int, rest: string)
    requires EndsNumber(rest)
    ensures ReadLong([' '] + DecimalInt(x) + rest) == if FitsLong(x) then Some(Read(x, rest)) else None
  {
    if x < 0 {
      NegativeLongReadsBack(-x, rest);
    } else {
      PositiveLongReadsBack(x, rest);
    }
  }

  lemma UnsignedReadsBack(x: nat, rest: string)
    requires EndsNumber(rest)
    ensures ReadUnsigned([' '] + Decimal(x) + rest) == if FitsUnsigned(x) then Some(Read(x, rest)) else None
  {
    PositiveReadsBack(x, rest);
    assert [' '] + Decimal(x) + rest == [' '] + (Decimal(x) + rest);
  }

  lemma {:induction false} LongsReadBack(xs: seq<int>, rest: string)
    requires EndsNumber(rest)
    ensures ReadLongs(PrintLongs(xs) + rest, |xs|) == if AllFitLong(xs) then Some(Read(xs, rest)) else None
  {
    if xs == [] {
      assert PrintLongs(xs) + rest == rest;
    } else {
      LongsReadBack(xs[1..], rest);
      LongsEndNumber(xs[1..], rest);
      LongsPrintOneMore(xs, rest);
      LongsReadOneMore(xs[0], xs[1..], PrintLongs(xs[1..]) + rest, rest, PrintLongs(xs) + rest);
    }
  }

  lemma LongsPrintOneMore(xs: seq<int>, rest: string)
    requires xs != []
    ensures PrintLongs(xs) + rest == [' '] + DecimalInt(xs[0]) + (PrintLongs(xs[1..]) + rest)
    ensures xs == [xs[0]] + xs[1..]
  {
    Regroup([' '] + DecimalInt(xs[0]), PrintLongs(xs[1..]), rest);
  }

  lemma LongsEndNumber(xs: seq<int>, rest: string)
    requires EndsNumber(rest)
    ensures EndsNumber(PrintLongs(xs) + rest)
  {
  }

  lemma UnsignedsEndNumber(xs: seq<nat>, rest: string)
    requires EndsNumber(rest)
    ensures EndsNumber(PrintUnsigneds(xs) + rest)
  {
  }

  lemma Regroup(a: string, b: string, c: string)
    ensures a + b + c == a + (b + c)
  {
  }

  lemma LongsReadOneMore(x: int, xs: seq<int>, more: string, rest: string, printed: string)
    requires EndsNumber(more) && printed == [' '] + DecimalInt(x) + more
    requires ReadLongs(more, |xs|) == if AllFitLong(xs) then Some(Read(xs, rest)) else None
    ensures ReadLongs(printed, |xs| + 1) ==
            if FitsLong(x) && AllFitLong(xs) then Some(Read([x] + xs, rest)) else None
  {
    LongReadsBack(x, more);
  }

  lemma {:induction false} UnsignedsReadBack(xs: seq<nat>, rest: string)
    requires EndsNumber(rest)
    ensures ReadUnsigneds(PrintUnsigneds(xs) + rest, |xs|) == if AllFitUnsigned(xs) then Some(Read(xs, rest)) else None
  {
    if xs == [] {
      assert PrintUnsigneds(xs) + rest == rest;
    } else {
      UnsignedsReadBack(xs[1..], rest);
      UnsignedsEndNumber(xs[1..], rest);
      UnsignedsPrintOneMore(xs, rest);
      UnsignedsReadOneMore(xs[0], xs[1..], PrintUnsigneds(xs[1..]) + rest, rest, PrintUnsigneds(xs) + rest);
    }
  }

  lemma UnsignedsPrintOneMore(xs: seq<nat>, rest: string)
    requires xs != []
    ensures PrintUnsigneds(xs) + rest == [' '] + Decimal(xs[0]) + (PrintUnsigneds(xs[1..]) + rest)
    ensures xs == [xs[0]] + xs[1..]
  {
    Regroup([' '] + Decimal(xs[0]), PrintUnsigneds(xs[1..]), rest);
  }

  lemma UnsignedsReadOneMore(x: nat, xs: seq<nat>, more: string, rest: string, printed: string)
    requires EndsNumber(more) && printed == [' '] + Decimal(x) + more
    requires ReadUnsigneds(more, |xs|) == if AllFitUnsigned(xs) then Some(Read(xs, rest)) else None
    ensures ReadUnsigneds(printed, |xs| + 1) ==
            if FitsUnsigned(x) && AllFitUnsigned(xs) then Some(Read([x] + xs, rest)) else None
  {
    UnsignedReadsBack(x, more);
  }

  lemma {:induction false} FindLastSkips(front: string, back: string, c: char)
    requires c !in back
    ensures FindLast(front + [c] + back, c) == Some(|front|)
  {
    var s := front + [c] + back;
    if back == "" {
      assert s[|s| - 1] == c;
    } else {
      assert s[..|s| - 1] == front + [c] + back[..|back| - 1];
      assert s[|s| - 1] == back[|back| - 1];
      FindLastSkips(front, back[..|back| - 1], c);
    }
  }

  lemma {:induction false} DecimalHasNoParen(n: nat)
    ensures ')' !in Decimal(n)
  {
    if n >= 10 {
      DecimalHasNoParen(n / 10);
    }
  }

  lemma {:induction false} LongsHaveNoParen(xs: seq<int>)
    ensures ')' !in PrintLongs(xs)
  {
    if xs != [] {
      LongsHaveNoParen(xs[1..]);
      DecimalHasNoParen(if xs[0] < 0 then -xs[0] else xs[0]);
    }
  }

  lemma {:induction false} UnsignedsHaveNoParen(xs: seq<nat>)
    ensures ')' !in PrintUnsigneds(xs)
  {
    if xs != [] {
      UnsignedsHaveNoParen(xs[1..]);
      DecimalHasNoParen(xs[0]);
    }
  }

  lemma StateReadsBack(state: char, rest: string)
    requires !IsSpace(state) && (rest == "" || IsSpace(rest[0]))
    ensures ReadWord([state] + rest) == Some(Read([state], rest))
  {
    var t := [state] + rest;
    assert SkipSpaces(t) == t && t[1..] == rest;
    assert WordLength(t) == 1;
  }

  /** Whatever the name of the thread, spaces and parentheses included, the two times are
      read back as they were printed, provided nothing after the name has a parenthesis and
      every field up to them fits its type; otherwise nothing is read. */
  lemma ParseReadsBackPrinted(pid: nat, comm: string, state: char, longs: seq<int>, unsigneds: seq<nat>, tail: string)
    requires !IsSpace(state) && state != ')' && ')' !in tail && EndsNumber(tail)
    requires |longs| == 5 && |unsigneds| == 7
    ensures ParseStat(PrintStat(pid, comm, state, longs, unsigneds, tail)) ==
            if AllFitLong(longs) && AllFitUnsigned(unsigneds) then Some(Times(unsigneds[5], unsigneds[6])) else None
  {
    var fields := PrintLongs(longs) + (PrintUnsigneds(unsigneds) + tail);
    FieldsReadBack(state, longs, unsigneds, tail);
    LongsHaveNoParen(longs);
    UnsignedsHaveNoParen(unsigneds);
    ParseAfterParen(Decimal(pid) + " (" + comm, state, fields);
    PrintedShape(pid, comm, state, longs, unsigneds, tail);
  }

  lemma PrintedShape(pid: nat, comm: string, state: char, longs: seq<int>, unsigneds: seq<nat>, tail: string)
    ensures PrintStat(pid, comm, state, longs, unsigneds, tail)
            == (Decimal(pid) + " (" + comm) + [')']
               + ([' ', state] + (PrintLongs(longs) + (PrintUnsigneds(unsigneds) + tail)))
  {
  }

  lemma ParseAfterParen(front: string, state: char, fields: string)
    requires state != ')' && ')' !in fields
    ensures ParseStat(front + [')'] + ([' ', state] + fields)) == ParseFields([state] + fields)
  {
    var back := [' ', state] + fields;
    FindLastSkips(front, back, ')');
    AfterParen(front, back);
    assert back[1..] == [state] + fields;
  }

  lemma FieldsReadBack(state: char, longs: seq<int>, unsigneds: seq<nat>, tail: string)
    requires !IsSpace(state) && EndsNumber(tail)
    requires |longs| == 5 && |unsigneds| == 7
    ensures ParseFields([state] + (PrintLongs(longs) + (PrintUnsigneds(unsigneds) + tail))) ==
            if AllFitLong(longs) && AllFitUnsigned(unsigneds) then Some(Times(unsigneds[5], unsigneds[6])) else None
  {
    UnsignedsReadBack(unsigneds, tail);
    UnsignedsEndNumber(unsigneds, tail);
    LongsReadBack(longs, PrintUnsigneds(unsigneds) + tail);
    FieldsStartWithSpace(longs, unsigneds, tail);
    StateReadsBack(state, PrintLongs(longs) + (PrintUnsigneds(unsigneds) + tail));
  }

  lemma FieldsStartWithSpace(longs: seq<int>, unsigneds: seq<nat>, tail: string)
    requires |longs| == 5
    ensures var fields := PrintLongs(longs) + (PrintUnsigneds(unsigneds) + tail);
            fields != "" && fields[0] == ' '
  {
  }

  lemma AfterParen(front: string, back: string)
    requires |back| > 1
    ensures (front + [')'] + back)[|front| + 2..] == back[1..]
  {
  }

  lemma {:induction false} FindLastFindsAny(s: string, c: char)
    ensures FindLast(s, c) == None <==> c !in s
  {
    if s != "" {
      FindLastFindsAny(s[..|s| - 1], c);
      assert s == s[..|s| - 1] + [s[|s| - 1]];
    }
  }

  /** A line without a closing parenthesis, or with at most one character behind the last one,
      or with blanks only behind that, gives no times. */
  lemma TruncatedLineGivesNothing(line: string, front: string, back: string)
    ensures ')' !in line ==> ParseStat(line) == None
    ensures ')' !in back && |back| <= 1 ==> ParseStat(front + [')'] + back) == None
    ensures |back| > 1 && ')' !in back && (forall i :: 1 <= i < |back| ==> IsSpace(back[i])) ==>
              ParseStat(front + [')'] + back) == None
  {
    FindLastFindsAny(line, ')');
    if ')' !in back {
      FindLastSkips(front, back, ')');
      if |back| > 1 && forall i :: 1 <= i < |back| ==> IsSpace(back[i]) {
        AfterParen(front, back);
        BlanksSkipped(back[1..]);
      }
    }
  }

  lemma {:induction false} BlanksSkipped(s: string)
    requires forall i :: 0 <= i < |s| ==> IsSpace(s[i])
    ensures SkipSpaces(s) == ""
  {
    if s != "" {
      BlanksSkipped(s[1..]);
    }
  }
}
