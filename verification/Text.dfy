/**
 * The text form of slot ranges and of migrating slots (store/slot.go), with the few string and
 * number functions it uses.
 */
module Text {
  import opened SlotRanges
  import opened Topology

  // ----- Strings -----

  function IndexOf(s: string, c: char): (i: int)
    ensures -1 <= i < |s|
    ensures i >= 0 ==> s[i] == c && c !in s[..i]
    ensures i == -1 ==> c !in s
  {
    if s == [] then -1
    else if s[0] == c then 0
    else
      var i := IndexOf(s[1..], c);
      if i == -1 then -1 else i + 1
  }

  function CountOf(s: string, c: char): nat {
    if s == [] then 0 else (if s[0] == c then 1 else 0) + CountOf(s[1..], c)
  }

  function Split(s: string, c: char): (fields: seq<string>)
    ensures fields != []
    decreases |s|
  {
    var i := IndexOf(s, c);
    if i == -1 then [s] else [s[..i]] + Split(s[i + 1..], c)
  }

  function Join(fields: seq<string>, c: char): string {
    if fields == [] then "" else if |fields| == 1 then fields[0] else fields[0] + [c] + Join(fields[1..], c)
  }

  lemma {:induction false} IndexAfter(a: string, c: char, b: string)
    requires c !in a
    ensures IndexOf(a + [c] + b, c) == |a|
  {
    if a != [] {
      IndexAfter(a[1..], c, b);
      assert (a + [c] + b)[1..] == a[1..] + [c] + b;
    }
  }

  lemma SplitHead(a: string, c: char, b: string)
    requires c !in a
    ensures Split(a + [c] + b, c) == [a] + Split(b, c)
  {
    IndexAfter(a, c, b);
    assert (a + [c] + b)[..|a|] == a && (a + [c] + b)[|a| + 1..] == b;
  }

  /** Splitting undoes joining, for fields that do not contain the separator. */
  lemma {:induction false} SplitJoin(fields: seq<string>, c: char)
    requires fields != [] && forall f :: f in fields ==> c !in f
    ensures Split(Join(fields, c), c) == fields
  {
    if |fields| == 1 {
      assert c !in fields[0];
    } else {
      SplitHead(fields[0], c, Join(fields[1..], c));
      SplitJoin(fields[1..], c);
      assert fields == [fields[0]] + fields[1..];
    }
  }

  /** The fields of a split do not contain the separator, and nothing that the text does not contain. */
  lemma {:induction false} SplitPieces(s: string, c: char)
    ensures forall f :: f in Split(s, c) ==> c !in f
    ensures forall f, d :: f in Split(s, c) && d in f ==> d in s
    decreases |s|
  {
    var i := IndexOf(s, c);
    if i != -1 { SplitPieces(s[i + 1..], c); }
  }

  lemma {:induction false} SplitCount(s: string, c: char)
    ensures |Split(s, c)| == CountOf(s, c) + 1
    decreases |s|
  {
    var i := IndexOf(s, c);
    if i == -1 {
      CountNone(s, c);
    } else {
      SplitCount(s[i + 1..], c);
      assert s == s[..i] + [c] + s[i + 1..];
      CountAfter(s[..i], c, s[i + 1..]);
    }
  }

  lemma CountAfter(a: string, c: char, b: string)
    requires c !in a
    ensures CountOf(a + [c] + b, c) == 1 + CountOf(b, c)
  {
    CountNone(a, c);
    CountConcat(a, [c] + b, c);
    assert a + [c] + b == a + ([c] + b);
    assert ([c] + b)[1..] == b;
  }

  lemma {:induction false} CountZeroIff(s: string, c: char)
    ensures CountOf(s, c) == 0 <==> c !in s
  {
    if s != [] {
      CountZeroIff(s[1..], c);
      assert s == [s[0]] + s[1..];
    }
  }

  // ----- Numbers -----

  predicate IsDigit(c: char) { '0' <= c <= '9' }

  function Itoa(n: int): string
    decreases n < 0, if n < 0 then -n else n
  {
    if n < 0 then "-" + Itoa(-n)
    else if n < 10 then [('0' as int + n) as char]
    else Itoa(n / 10) + [('0' as int + n % 10) as char]
  }

  predicate AllDigits(s: string) { forall i :: 0 <= i < |s| ==> IsDigit(s[i]) }

  function DigitsValue(s: string): int
    requires AllDigits(s)
  {
    if s == [] then 0 else DigitsValue(s[..|s| - 1]) * 10 + (s[|s| - 1] as int - '0' as int)
  }

  const MAX_INT := 0x7fff_ffff_ffff_ffff

  // strconv.Atoi: an optional sign and decimal digits that fit 64 bits.
  function Atoi(s: string): Option<int> {
    var signed := s != [] && (s[0] == '+' || s[0] == '-');
    var body := if signed then s[1..] else s;
    if body == [] || !AllDigits(body) then None
    else
      var n: int := if signed && s[0] == '-' then -DigitsValue(body) else DigitsValue(body);
      if -MAX_INT - 1 <= n <= MAX_INT then Some(n) else None
  }

  lemma {:induction false} ItoaDigits(n: nat)
    ensures Itoa(n) != [] && AllDigits(Itoa(n)) && DigitsValue(Itoa(n)) == n
  {
    if n >= 10 {
      ItoaDigits(n / 10);
      assert Itoa(n)[..|Itoa(n)| - 1] == Itoa(n / 10);
    }
  }

  lemma AtoiItoa(n: nat)
    requires n <= MAX_INT
    ensures Atoi(Itoa(n)) == Some(n)
    ensures forall c :: c in Itoa(n) ==> IsDigit(c)
  {
    ItoaDigits(n);
    assert IsDigit(Itoa(n)[0]);
  }

  // ----- Slot ranges -----

  function RangeString(r: SlotRange): string {
    if r.start == r.stop then Itoa(r.start) else Itoa(r.start) + ['-'] + Itoa(r.stop)
  }

  datatype ParseResult = Parsed(range: SlotRange) | ManyRanges | NotANumber | StartGreaterThanStop | OutOfRange

  function ParseSlotRange(s: string): ParseResult {
    if CountOf(s, '-') > 1 then ManyRanges
    else
      var i := IndexOf(s, '-');
      if i == -1 then
        var start := Atoi(s);
        if start == None then NotANumber
        else if start.value < MIN_SLOT_ID || start.value > MAX_SLOT_ID then OutOfRange
        else Parsed(SlotRange(start.value, start.value))
      else
        var start, stop := Atoi(s[0..i]), Atoi(s[i + 1..]);
        if start == None || stop == None then NotANumber
        else if start.value > stop.value then StartGreaterThanStop
        else if (start.value < MIN_SLOT_ID || start.value > MAX_SLOT_ID)
             || (stop.value < MIN_SLOT_ID || stop.value > MAX_SLOT_ID) then OutOfRange
        else Parsed(SlotRange(start.value, stop.value))
  }

  lemma {:induction false} CountNone(s: string, c: char)
    requires c !in s
    ensures CountOf(s, c) == 0
  {
    if s != [] { CountNone(s[1..], c); }
  }

  lemma {:induction false} CountConcat(a: string, b: string, c: char)
    ensures CountOf(a + b, c) == CountOf(a, c) + CountOf(b, c)
  {
    if a == [] {
      assert a + b == b;
    } else {
      CountConcat(a[1..], b, c);
      assert (a + b)[1..] == a[1..] + b;
    }
  }

  // A decimal number, possibly with a plus sign.
  predicate Numeral(s: string, n: int) {
    Digits(if s != [] && s[0] == '+' then s[1..] else s, n)
  }

  predicate Digits(s: string, n: int) { s != [] && AllDigits(s) && DigitsValue(s) == n }

  // One slot, or two joined by a dash.
  ghost predicate Denotes(s: string, r: SlotRange) {
    || (r.start == r.stop && Numeral(s, r.start))
    || exists i :: JoinedAt(s, r, i)
  }

  predicate JoinedAt(s: string, r: SlotRange, i: int) {
    0 <= i < |s| && s[i] == '-' && Numeral(s[..i], r.start) && Numeral(s[i + 1..], r.stop)
  }

  lemma NumeralIsAtoi(s: string, n: int)
    requires n <= MAX_INT && '-' !in s
    ensures Numeral(s, n) <==> Atoi(s) == Some(n)
  {
    var digits := if s != [] && s[0] == '+' then s[1..] else s;
    if AllDigits(digits) { DigitsNotNegative(digits); }
  }

  /** Numbers are read exactly if they fit 64 bits, with either sign. */
  lemma AtoiIff(s: string, n: int)
    ensures Atoi(s) == Some(n) <==>
            -MAX_INT - 1 <= n <= MAX_INT && (Numeral(s, n) || (s != [] && s[0] == '-' && Digits(s[1..], -n)))
  {
    if s != [] && s[0] == '-' && Numeral(s, n) { NumeralHasNoDash(s, n); }
  }

  lemma {:induction false} DigitsNotNegative(s: string)
    requires AllDigits(s)
    ensures DigitsValue(s) >= 0
  {
    if s != [] { DigitsNotNegative(s[..|s| - 1]); }
  }

  lemma NumeralHasNoDash(s: string, n: int)
    requires Numeral(s, n)
    ensures '-' !in s
  {
    var digits := if s[0] == '+' then s[1..] else s;
    assert forall c :: c in digits ==> IsDigit(c);
    assert s == digits || s == ['+'] + digits;
  }

  /** A text is accepted exactly if it denotes a valid range, and for that range. */
  lemma AcceptedIff(s: string, r: SlotRange)
    ensures ParseSlotRange(s) == Parsed(r) <==> r.Valid() && Denotes(s, r)
  {
    var i := IndexOf(s, '-');
    CountZeroIff(s, '-');
    if r.Valid() && i == -1 {
      NumeralIsAtoi(s, r.start);
    } else if r.Valid() {
      OneDashIff(s, i);
      if '-' !in s[i + 1..] {
        NumeralIsAtoi(s[..i], r.start);
        NumeralIsAtoi(s[i + 1..], r.stop);
      }
      DenotesAtDash(s, r, i);
      assert s[0..i] == s[..i];
    }
  }

  lemma OneDashIff(s: string, i: int)
    requires i == IndexOf(s, '-') && i >= 0
    ensures CountOf(s, '-') > 1 <==> '-' in s[i + 1..]
  {
    assert s == s[..i] + ['-'] + s[i + 1..];
    CountAfter(s[..i], '-', s[i + 1..]);
    CountZeroIff(s[i + 1..], '-');
  }

  lemma DenotesAtDash(s: string, r: SlotRange, i: int)
    requires i == IndexOf(s, '-') && i >= 0
    ensures Denotes(s, r) <==> Numeral(s[..i], r.start) && Numeral(s[i + 1..], r.stop)
    ensures Denotes(s, r) ==> '-' !in s[i + 1..]
  {
    if Numeral(s, r.start) { NumeralHasNoDash(s, r.start); }
    if j :| JoinedAt(s, r, j) {
      JoinedAtFirst(s, r, i, j);
    } else {
      assert !JoinedAt(s, r, i);
    }
  }

  lemma JoinedAtFirst(s: string, r: SlotRange, i: int, j: int)
    requires i == IndexOf(s, '-') && JoinedAt(s, r, j)
    ensures i == j && '-' !in s[i + 1..]
  {
    NumeralHasNoDash(s[..j], r.start);
    NumeralHasNoDash(s[j + 1..], r.stop);
    assert forall k :: 0 <= k < j ==> s[k] in s[..j];
  }

  /** Whatever text is accepted, the range is valid. */
  lemma AcceptedIsValid(s: string)
    ensures ParseSlotRange(s).Parsed? ==> ParseSlotRange(s).range.Valid()
  {}

  lemma ParseOne(a: string, start: int)
    requires '-' !in a && Atoi(a) == Some(start) && MIN_SLOT_ID <= start <= MAX_SLOT_ID
    ensures ParseSlotRange(a) == Parsed(SlotRange(start, start))
  {
    CountNone(a, '-');
  }

  lemma ParseTwo(a: string, b: string, r: SlotRange)
    requires '-' !in a && '-' !in b && Atoi(a) == Some(r.start) && Atoi(b) == Some(r.stop) && r.Valid()
    ensures ParseSlotRange(a + ['-'] + b) == Parsed(r)
  {
    ParseParts(a + ['-'] + b, a, b, r);
  }

  lemma ParseParts(s: string, a: string, b: string, r: SlotRange)
    requires s == a + ['-'] + b && '-' !in a && '-' !in b
    requires Atoi(a) == Some(r.start) && Atoi(b) == Some(r.stop) && r.Valid()
    ensures ParseSlotRange(s) == Parsed(r)
  {
    CountAfter(a, '-', b);
    CountNone(b, '-');
    IndexAfter(a, '-', b);
    assert s[0..|a|] == a && s[|a| + 1..] == b;
  }

  lemma ParseValid(r: SlotRange)
    requires r.Valid()
    ensures ParseSlotRange(RangeString(r)) == Parsed(r)
  {
    AtoiItoa(r.start);
    AtoiItoa(r.stop);
    if r.start == r.stop { ParseOne(Itoa(r.start), r.start); } else { ParseTwo(Itoa(r.start), Itoa(r.stop), r); }
  }

  /** Writing a range and reading it back gives the range exactly when it is valid. */
  lemma RangeRoundTripIff(r: SlotRange)
    ensures ParseSlotRange(RangeString(r)) == Parsed(r) <==> r.Valid()
  {
    if r.Valid() { ParseValid(r); }
    AcceptedIsValid(RangeString(r));
  }

  // ----- Lists of fields -----

  function RangeFields(rs: SlotRanges): seq<string> {
    seq(|rs|, i requires 0 <= i < |rs| => RangeString(rs[i]))
  }

  function CollectRanges(parses: seq<ParseResult>): Option<SlotRanges> {
    if parses == [] then Some([])
    else
      var init, last := CollectRanges(parses[..|parses| - 1]), parses[|parses| - 1];
      if init == None || !last.Parsed? then None else Some(init.value + [last.range])
  }

  function ParseRanges(fields: seq<string>): Option<SlotRanges> {
    CollectRanges(seq(|fields|, i requires 0 <= i < |fields| => ParseSlotRange(fields[i])))
  }

  lemma {:induction false} CollectParsed(parses: seq<ParseResult>, rs: SlotRanges)
    requires |parses| == |rs| && forall i :: 0 <= i < |rs| ==> parses[i] == Parsed(rs[i])
    ensures CollectRanges(parses) == Some(rs)
  {
    if rs != [] {
      var n := |rs| - 1;
      CollectParsed(parses[..n], rs[..n]);
      assert rs == rs[..n] + [rs[n]];
    }
  }

  lemma ParseRangesBack(rs: SlotRanges)
    requires InBounds(rs)
    ensures ParseRanges(RangeFields(rs)) == Some(rs)
  {
    var parses := seq(|rs|, i requires 0 <= i < |rs| => ParseSlotRange(RangeFields(rs)[i]));
    forall i | 0 <= i < |rs| ensures parses[i] == Parsed(rs[i]) { ParseValid(rs[i]); }
    CollectParsed(parses, rs);
    assert |RangeFields(rs)| == |rs|;
  }

  lemma {:induction false} CollectedValid(parses: seq<ParseResult>)
    requires forall i :: 0 <= i < |parses| && parses[i].Parsed? ==> parses[i].range.Valid()
    ensures CollectRanges(parses).Some? ==> InBounds(CollectRanges(parses).value)
  {
    if parses != [] { CollectedValid(parses[..|parses| - 1]); }
  }

  lemma ParsedRangesValid(fields: seq<string>)
    ensures ParseRanges(fields).Some? ==> InBounds(ParseRanges(fields).value)
  {
    var parses := seq(|fields|, i requires 0 <= i < |fields| => ParseSlotRange(fields[i]));
    forall i | 0 <= i < |fields| && parses[i].Parsed? ensures parses[i].range.Valid() { AcceptedIsValid(fields[i]); }
    CollectedValid(parses);
  }

  // Text that can be a field of a line.
  predicate Plain(s: string) { ' ' !in s && '\n' !in s }

  lemma RangeStringPlain(r: SlotRange)
    requires r.Valid()
    ensures Plain(RangeString(r)) && RangeString(r) != ""
  {
    NumberPlain(r.start);
    NumberPlain(r.stop);
    PlainJoined(Itoa(r.start), '-', Itoa(r.stop));
  }

  lemma NumberPlain(n: nat)
    ensures Plain(Itoa(n)) && Itoa(n) != ""
  {
    ItoaDigits(n);
  }

  lemma PlainJoined(a: string, c: char, b: string)
    requires Plain(a) && Plain(b) && c != ' ' && c != '\n'
    ensures Plain(a + [c] + b)
  {}

  lemma RangeFieldsPlain(rs: SlotRanges)
    requires InBounds(rs)
    ensures forall f :: f in RangeFields(rs) ==> Plain(f)
  {
    forall i | 0 <= i < |rs| ensures Plain(RangeString(rs[i])) { RangeStringPlain(rs[i]); }
  }

  lemma {:induction false} JoinAvoids(fields: seq<string>, c: char, d: char)
    requires c != d && forall f :: f in fields ==> d !in f
    ensures d !in Join(fields, c)
  {
    if |fields| > 1 { JoinAvoids(fields[1..], c, d); }
  }

  // ----- Migrating slots in JSON -----

  datatype Json = JNull | JString(text: string) | JNumber(number: real) | JOther

  // A nil pointer and a slot that is not migrating are both written as null.
  function SaveMigrating(m: Option<MigratingSlot>): Json {
    if m == None || !m.value.isMigrating then JNull else JString(RangeString(m.value.range))
  }

  // A null leaves the pointer nil; old data holds a single slot number, or -1 for none.
  function LoadMigrating(j: Json): Result<Option<MigratingSlot>> {
    match j
    case JNull => Ok(None)
    case JString(text) =>
      (match ParseSlotRange(text)
       case Parsed(range) => Ok(Some(MigratingSlot(range, true)))
       case _ => Err(InvalidArgument))
    case JNumber(number) =>
      if number == -1.0 then Ok(Some(MigratingSlot(SlotRange(0, 0), false)))
      else if number < MIN_SLOT_ID as real || number > MAX_SLOT_ID as real then Err(InvalidArgument)
      else Ok(Some(MigratingSlot(SlotRange(number.Floor, number.Floor), true)))
    case JOther => Err(InvalidArgument)
  }

  predicate Migrates(m: Option<MigratingSlot>) { m.Some? && m.value.isMigrating }

  /**
   * Saving and reloading keeps whether a slot migrates and which range, exactly when a migrating
   * range is valid; otherwise the saved text cannot be read back.
   */
  lemma MigratingRoundTripIff(m: Option<MigratingSlot>)
    ensures LoadMigrating(SaveMigrating(m)) == Ok(if Migrates(m) then m else None) <==>
            (Migrates(m) ==> m.value.range.Valid())
  {
    if Migrates(m) { RangeRoundTripIff(m.value.range); }
  }

  /** Old data: -1 is no migration, a number from 0 to 16383 is one of the slot below it, others are refused. */
  lemma LoadNumber(x: real)
    ensures var r := LoadMigrating(JNumber(x));
      && (x == -1.0 ==> r.Ok? && !Migrates(r.value))
      && (r.Ok? <==> x == -1.0 || 0.0 <= x <= 16383.0) && (r.Err? ==> r == Err(InvalidArgument))
      && (0.0 <= x <= 16383.0 ==> r == Ok(Some(MigratingSlot(SlotRange(x.Floor, x.Floor), true))))
    ensures forall n: int :: 0 <= n <= 16383 ==>
      LoadMigrating(JNumber(n as real)) == Ok(Some(MigratingSlot(SlotRange(n, n), true)))
  {}

  /** A text is loaded as a migration of exactly the range it denotes, and refused otherwise. */
  lemma LoadText(text: string, range: SlotRange)
    ensures LoadMigrating(JString(text)) == Ok(Some(MigratingSlot(range, true))) <==>
            range.Valid() && Denotes(text, range)
    ensures var r := LoadMigrating(JString(text)); if r.Ok? then Migrates(r.value) else r == Err(InvalidArgument)
    ensures LoadMigrating(JNull) == Ok(None) && LoadMigrating(JOther) == Err(InvalidArgument)
  {
    AcceptedIff(text, range);
  }

  /** Whatever JSON is accepted as a migration carries a valid range. */
  lemma LoadedMigrationIsValid(j: Json)
    ensures LoadMigrating(j).Ok? && Migrates(LoadMigrating(j).value) ==> LoadMigrating(j).value.value.range.Valid()
  {
    if j.JString? { AcceptedIsValid(j.text); }
  }
}
