/** The lock coordinator's own Redis client: its command encoder and its reply parser. */
module RedisProtocol {
  import opened Prelude

  type Byte = b: nat | b < 256

  const CR: Byte := 13
  const LF: Byte := 10
  const PLUS: Byte := 43
  const MINUS: Byte := 45
  const COLON: Byte := 58
  const DOLLAR: Byte := 36
  const STAR: Byte := 42
  const ZERO_DIGIT: Byte := 48
  const CRLF: seq<Byte> := [CR, LF]

  // ---- decimal numbers ----

  function Digits(n: nat): (r: seq<Byte>)
    ensures r != [] && AllDigits(r) && Value(r) == n
  {
    if n < 10 then
      assert [ZERO_DIGIT + n][..0] == [];
      [ZERO_DIGIT + n]
    else
      var r := Digits(n / 10) + [ZERO_DIGIT + n % 10];
      assert r[..|r| - 1] == Digits(n / 10);
      r
  }

  predicate AllDigits(s: seq<Byte>) {
    forall i :: 0 <= i < |s| ==> ZERO_DIGIT <= s[i] < ZERO_DIGIT + 10
  }

  function Value(s: seq<Byte>): nat
    requires AllDigits(s)
  {
    if s == [] then 0 else Value(s[..|s| - 1]) * 10 + (s[|s| - 1] - ZERO_DIGIT)
  }

  /** What JavaScript's Number makes of a text. */
  datatype JsNumber = NaN | PosInfinity | NegInfinity | Finite(value: real)

  /** How a line is read as a number is a parameter of the parser: blanks, signs, fractions, exponents, hexadecimal
      and whatever else the runtime accepts, rounding included. */
  type NumberReader = seq<Byte> -> JsNumber

  const MAX_SAFE: nat := 0x1F_FFFF_FFFF_FFFF

  /** All that is needed of the reader: it reads the plain numbers a server sends. */
  ghost predicate ReadsDecimals(number: NumberReader) {
    && (forall n: nat :: n <= MAX_SAFE ==> number(Digits(n)) == Finite(n as real))
    && number([MINUS, ZERO_DIGIT + 1]) == Finite(-1.0)
  }

  /** A reader of blank lines and signed runs of digits. */
  function PlainNumber(line: seq<Byte>): JsNumber {
    if line == [] then Finite(0.0)
    else if AllDigits(line) then Finite(Value(line) as real)
    else if |line| > 1 && AllDigits(line[1..]) && line[0] == MINUS then Finite(-(Value(line[1..]) as real))
    else if |line| > 1 && AllDigits(line[1..]) && line[0] == PLUS then Finite(Value(line[1..]) as real)
    else NaN
  }

  lemma PlainReadsDecimals()
    ensures ReadsDecimals(PlainNumber)
    ensures PlainNumber([MINUS, ZERO_DIGIT + 9]) == Finite(-9.0)
  {
    assert Value([ZERO_DIGIT + 1][..0]) == 0 && Value([ZERO_DIGIT + 9][..0]) == 0;
    assert [MINUS, ZERO_DIGIT + 1][1..] == [ZERO_DIGIT + 1] && [MINUS, ZERO_DIGIT + 9][1..] == [ZERO_DIGIT + 9];
    assert PlainNumber([MINUS, ZERO_DIGIT + 1]) == Finite(-1.0);
  }

  // ---- the parser ----

  predicate CrlfAt(b: seq<Byte>, i: nat) {
    i + 1 < |b| && b[i] == CR && b[i + 1] == LF
  }

  function FindCrlf(b: seq<Byte>, from: nat): (r: Option<nat>)
    requires from <= |b|
    ensures r.Some? ==> from <= r.value && CrlfAt(b, r.value)
    ensures forall j: nat :: from <= j && (r.Some? ==> j < r.value) ==> !CrlfAt(b, j)
    decreases |b| - from
  {
    if from == |b| then None
    else if CrlfAt(b, from) then Some(from)
    else FindCrlf(b, from + 1)
  }

  datatype Reply =
    | Incomplete
    | Text(bytes: seq<Byte>)
    | Failure(message: seq<Byte>)
    | Unsupported(prefix: Byte)
    | Integer(value: JsNumber)
    | Null

  /** JavaScript's subarray: a negative end counts back from the end of the buffer. */
  function Subarray(b: seq<Byte>, start: nat, stop: int): seq<Byte> {
    var end := if stop >= 0 then stop else if |b| + stop >= 0 then |b| + stop else 0;
    var end := if end <= |b| then end else |b|;
    if start <= end then b[start..end] else []
  }

  function Line(b: seq<Byte>, lineEnd: nat): seq<Byte>
    requires lineEnd <= |b|
  {
    if lineEnd >= 1 then b[1..lineEnd] else []
  }

  function Truncate(x: real): int {
    if x >= 0.0 then x.Floor else -((-x).Floor)
  }

  /** An end of NaN or of minus infinity is clipped to the front of the buffer, where nothing is left. */
  function ParseBulk(b: seq<Byte>, start: nat, length: JsNumber): Reply {
    match length
    case NaN => Text([])
    case NegInfinity => Text([])
    case PosInfinity => Incomplete
    case Finite(n) =>
      if n == -1.0 then Null
      else if |b| as real < start as real + n + 2.0 then Incomplete
      else Text(Subarray(b, start, Truncate(start as real + n)))
  }

  function Parse(b: seq<Byte>, number: NumberReader): Reply {
    if b == [] then Incomplete else
    match FindCrlf(b, 0)
    case None => Incomplete
    case Some(lineEnd) =>
      var line := Line(b, lineEnd);
      if b[0] == PLUS then Text(line)
      else if b[0] == MINUS then Failure(line)
      else if b[0] == COLON then Integer(number(line))
      else if b[0] == DOLLAR then ParseBulk(b, lineEnd + 2, number(line))
      else Unsupported(b[0])
  }

  // ---- appended bytes ----

  lemma FindCrlfAppend(b: seq<Byte>, t: seq<Byte>)
    requires FindCrlf(b, 0).Some?
    ensures FindCrlf(b + t, 0) == FindCrlf(b, 0)
  {
    var i := FindCrlf(b, 0).value;
    assert CrlfAt(b + t, i);
    forall j: nat | j < i ensures !CrlfAt(b + t, j) {
      assert !CrlfAt(b, j);
    }
  }

  /** A bulk length so far below zero that the end of the payload lies before the start of the buffer. */
  predicate Runaway(b: seq<Byte>, number: NumberReader) {
    && b != [] && b[0] == DOLLAR && FindCrlf(b, 0).Some?
    && var lineEnd := FindCrlf(b, 0).value;
       var n := number(Line(b, lineEnd));
       n.Finite? && Truncate((lineEnd + 2) as real + n.value) < 0
  }

  /** A complete parse is final, whatever bytes follow, exactly when no runaway length was announced. */
  lemma CompleteIsFinal(b: seq<Byte>, number: NumberReader)
    requires Parse(b, number) != Incomplete
    ensures (forall t :: Parse(b + t, number) == Parse(b, number)) <==> !Runaway(b, number)
  {
    hide Parse, Runaway;
    if Runaway(b, number) {
      var t := RunawayAppend(b, number);
      assert Parse(b + t, number) != Parse(b, number);
    } else {
      forall t ensures Parse(b + t, number) == Parse(b, number) { CalmAppend(b, t, number); }
    }
  }

  /** After a runaway length, enough further bytes make the same reply longer. */
  lemma RunawayAppend(b: seq<Byte>, number: NumberReader) returns (t: seq<Byte>)
    requires Parse(b, number) != Incomplete && Runaway(b, number)
    ensures Parse(b + t, number) != Parse(b, number)
  {
    hide Line;
    var lineEnd := FindCrlf(b, 0).value;
    var n := number(Line(b, lineEnd)).value;
    var stop := Truncate((lineEnd + 2) as real + n);
    t := seq(lineEnd + 3 - stop, _ => CR);
    LineAppend(b, t);
    assert |Subarray(b + t, lineEnd + 2, stop)| > |Subarray(b, lineEnd + 2, stop)|;
  }

  /** Such replies exist: "$-9" announces an end four bytes before the buffer, and reads as empty until more arrives. */
  lemma RunawayExample(number: NumberReader, t: seq<Byte>)
    requires number([MINUS, ZERO_DIGIT + 9]) == Finite(-9.0) && |t| == 10
    ensures var b := [DOLLAR, MINUS, ZERO_DIGIT + 9, CR, LF];
            && Runaway(b, number) && Parse(b, number) == Text([]) && Parse(b + t, number) == Text(t[..6])
  {
    var b := [DOLLAR, MINUS, ZERO_DIGIT + 9, CR, LF];
    assert CrlfAt(b, 3) && !CrlfAt(b, 0) && !CrlfAt(b, 1) && !CrlfAt(b, 2);
    assert FindCrlf(b, 0) == Some(3);
    assert Line(b, 3) == [MINUS, ZERO_DIGIT + 9];
    LineAppend(b, t);
    assert (b + t)[5..11] == t[..6];
  }

  lemma LineAppend(b: seq<Byte>, t: seq<Byte>)
    requires FindCrlf(b, 0).Some?
    ensures FindCrlf(b + t, 0) == FindCrlf(b, 0)
    ensures Line(b + t, FindCrlf(b, 0).value) == Line(b, FindCrlf(b, 0).value)
  {
    FindCrlfAppend(b, t);
  }

  lemma BulkAppend(b: seq<Byte>, t: seq<Byte>, start: nat, length: JsNumber)
    requires ParseBulk(b, start, length) != Incomplete
    requires length.Finite? ==> Truncate(start as real + length.value) >= 0
    ensures ParseBulk(b + t, start, length) == ParseBulk(b, start, length)
  {
    if length.Finite? {
      var stop := Truncate(start as real + length.value);
      if start <= stop <= |b| { assert (b + t)[start..stop] == b[start..stop]; }
    }
  }

  lemma CalmAppend(b: seq<Byte>, t: seq<Byte>, number: NumberReader)
    requires Parse(b, number) != Incomplete && !Runaway(b, number)
    ensures Parse(b + t, number) == Parse(b, number)
  {
    hide ParseBulk, FindCrlf, Line, Truncate;
    LineAppend(b, t);
    var lineEnd := FindCrlf(b, 0).value;
    if b[0] == DOLLAR { BulkAppend(b, t, lineEnd + 2, number(Line(b, lineEnd))); }
  }

  // ---- what a server sends ----

  /** The replies the client supports. A line of text carries no line end; a bulk payload carries anything. */
  datatype Message =
    | SimpleString(line: seq<Byte>)
    | SimpleError(line: seq<Byte>)
    | Counter(count: nat)
    | BulkString(payload: seq<Byte>)
    | Missing

  ghost predicate OneLine(s: seq<Byte>) {
    forall i: nat :: !CrlfAt(s, i)
  }

  /** Lines are lines, and numbers are exact in a double. */
  ghost predicate WellFormed(m: Message) {
    && (m.SimpleString? || m.SimpleError? ==> OneLine(m.line))
    && (m.Counter? ==> m.count <= MAX_SAFE)
    && (m.BulkString? ==> |m.payload| <= MAX_SAFE)
  }

  function EncodeBulk(payload: seq<Byte>): seq<Byte> {
    [DOLLAR] + Digits(|payload|) + CRLF + (payload + CRLF)
  }

  function EncodeMessage(m: Message): seq<Byte> {
    match m
    case SimpleString(line) => [PLUS] + line + CRLF
    case SimpleError(line) => [MINUS] + line + CRLF
    case Counter(count) => [COLON] + Digits(count) + CRLF
    case BulkString(payload) => EncodeBulk(payload)
    case Missing => [DOLLAR] + [MINUS, ZERO_DIGIT + 1] + CRLF
  }

  function Meaning(m: Message): Reply {
    match m
    case SimpleString(line) => Text(line)
    case SimpleError(line) => Failure(line)
    case Counter(count) => Integer(Finite(count as real))
    case BulkString(payload) => Text(payload)
    case Missing => Null
  }

  /** The first line end of a prefix byte, one line and a line end is the one just after the line. */
  lemma HeaderEnds(prefix: Byte, line: seq<Byte>, rest: seq<Byte>)
    requires prefix != CR && OneLine(line)
    ensures var b := [prefix] + line + CRLF + rest;
            FindCrlf(b, 0) == Some(|line| + 1) && Line(b, |line| + 1) == line
  {
    var b := [prefix] + line + CRLF + rest;
    assert CrlfAt(b, |line| + 1);
    forall j: nat | j < |line| + 1 ensures !CrlfAt(b, j) {
      if 0 < j < |line| { assert !CrlfAt(line, j - 1); }
    }
  }

  lemma DigitsAreOneLine(s: seq<Byte>)
    requires AllDigits(s)
    ensures OneLine(s)
  {}

  /** No strict prefix of such a header holds a line end. */
  lemma HeaderOpen(prefix: Byte, line: seq<Byte>, k: nat, number: NumberReader)
    requires prefix != CR && OneLine(line) && k < |line| + 3
    ensures Parse(([prefix] + line + CRLF)[..k], number) == Incomplete
  {
    var b := [prefix] + line + CRLF;
    HeaderEnds(prefix, line, []);
    assert b + [] == b;
    if k > 0 {
      var r := FindCrlf(b[..k], 0);
      if r.Some? { assert CrlfAt(b, r.value); }
    }
  }

  function HeaderLine(m: Message): seq<Byte> {
    match m
    case SimpleString(line) => line
    case SimpleError(line) => line
    case Counter(count) => Digits(count)
    case BulkString(payload) => Digits(|payload|)
    case Missing => [MINUS, ZERO_DIGIT + 1]
  }

  lemma HeaderIsOneLine(m: Message)
    requires WellFormed(m)
    ensures OneLine(HeaderLine(m))
  {}

  /** What was sent is what is read, whatever the payload and whatever follows it. */
  lemma RoundTrip(m: Message, rest: seq<Byte>, number: NumberReader)
    requires WellFormed(m) && ReadsDecimals(number)
    ensures Parse(EncodeMessage(m) + rest, number) == Meaning(m)
  {
    hide Parse, EncodeBulk;
    HeaderIsOneLine(m);
    match m
    case BulkString(payload) => BulkRoundTrip(payload, rest, number);
    case SimpleString(line) => ParseLine(PLUS, line, rest, number);
    case SimpleError(line) => ParseLine(MINUS, line, rest, number);
    case Counter(count) => ParseLine(COLON, Digits(count), rest, number);
    case Missing => ParseLine(DOLLAR, [MINUS, ZERO_DIGIT + 1], rest, number);
  }

  /** How a one-line reply is read. */
  lemma ParseLine(prefix: Byte, line: seq<Byte>, rest: seq<Byte>, number: NumberReader)
    requires prefix in {PLUS, MINUS, COLON, DOLLAR} && OneLine(line)
    ensures var r := Parse([prefix] + line + CRLF + rest, number);
            && (prefix == PLUS ==> r == Text(line))
            && (prefix == MINUS ==> r == Failure(line))
            && (prefix == COLON ==> r == Integer(number(line)))
            && (prefix == DOLLAR && number(line) == Finite(-1.0) ==> r == Null)
  {
    hide FindCrlf, Line;
    HeaderEnds(prefix, line, rest);
  }

  lemma BulkRoundTrip(payload: seq<Byte>, rest: seq<Byte>, number: NumberReader)
    requires number(Digits(|payload|)) == Finite(|payload| as real)
    ensures Parse(EncodeBulk(payload) + rest, number) == Text(payload)
  {
    hide Digits, Parse, ParseBulk, EncodeBulk, BodyAt;
    BulkHeader(payload, rest, number);
    BulkBody(payload, rest);
    BodyRead(EncodeBulk(payload) + rest, |Digits(|payload|)| + 3, payload);
  }

  predicate BodyAt(b: seq<Byte>, start: nat, payload: seq<Byte>) {
    start + |payload| + 2 <= |b| && b[start..start + |payload|] == payload
  }

  lemma BulkHeader(payload: seq<Byte>, rest: seq<Byte>, number: NumberReader)
    ensures var b, line := EncodeBulk(payload) + rest, Digits(|payload|);
            Parse(b, number) == ParseBulk(b, |line| + 3, number(line))
  {
    hide Digits, Parse, ParseBulk;
    var line := Digits(|payload|);
    DigitsAreOneLine(line);
    ParseHeader(line, payload + CRLF + rest, number);
    assert EncodeBulk(payload) + rest == [DOLLAR] + line + CRLF + (payload + CRLF + rest);
  }

  lemma BulkBody(payload: seq<Byte>, rest: seq<Byte>)
    ensures BodyAt(EncodeBulk(payload) + rest, |Digits(|payload|)| + 3, payload)
  {
    hide Digits;
  }

  lemma BodyRead(b: seq<Byte>, start: nat, payload: seq<Byte>)
    requires BodyAt(b, start, payload)
    ensures ParseBulk(b, start, Finite(|payload| as real)) == Text(payload)
  {
    assert Truncate(start as real + |payload| as real) == start + |payload|;
  }

  lemma ParseHeader(line: seq<Byte>, rest: seq<Byte>, number: NumberReader)
    requires OneLine(line)
    ensures var b := [DOLLAR] + line + CRLF + rest; Parse(b, number) == ParseBulk(b, |line| + 3, number(line))
  {
    hide FindCrlf, Line, ParseBulk;
    HeaderEnds(DOLLAR, line, rest);
  }

  /** Until its last byte arrives, a reply is incomplete. */
  lemma PrefixIsIncomplete(m: Message, k: nat, number: NumberReader)
    requires WellFormed(m) && ReadsDecimals(number) && k < |EncodeMessage(m)|
    ensures Parse(EncodeMessage(m)[..k], number) == Incomplete
  {
    HeaderIsOneLine(m);
    var line, b := HeaderLine(m), EncodeMessage(m);
    if m.BulkString? && k >= |line| + 3 {
      var body := (m.payload + CRLF)[..k - |line| - 3];
      assert b[..k] == [DOLLAR] + line + CRLF + body;
      HeaderEnds(DOLLAR, line, body);
    } else {
      assert b[..k] == ([b[0]] + line + CRLF)[..k];
      HeaderOpen(b[0], line, k, number);
    }
  }

  // ---- chunks ----

  function Flatten(chunks: seq<seq<Byte>>): seq<Byte> {
    if chunks == [] then [] else Flatten(chunks[..|chunks| - 1]) + chunks[|chunks| - 1]
  }

  /** The socket handler: parse again after every chunk, stop at the first complete reply. */
  method Receive(chunks: seq<seq<Byte>>, number: NumberReader) returns (r: Reply, used: nat)
    ensures used <= |chunks|
    ensures r == Incomplete ==> used == |chunks|
    ensures r == if used == 0 then Incomplete else Parse(Flatten(chunks[..used]), number)
    ensures forall i :: 0 < i < used ==> Parse(Flatten(chunks[..i]), number) == Incomplete
  {
    var buffer: seq<Byte> := [];
    used := 0;
    while used < |chunks|
      invariant 0 <= used <= |chunks|
      invariant buffer == Flatten(chunks[..used])
      invariant forall i :: 0 < i <= used ==> Parse(Flatten(chunks[..i]), number) == Incomplete
    {
      assert chunks[..used + 1][..used] == chunks[..used];
      buffer := buffer + chunks[used];
      used := used + 1;
      r := Parse(buffer, number);
      if r != Incomplete { return; }
    }
    r := Incomplete;
  }

  lemma {:induction false} FlattenPrefix(chunks: seq<seq<Byte>>, i: nat)
    requires i <= |chunks|
    ensures Flatten(chunks[..i]) <= Flatten(chunks)
    decreases |chunks|
  {
    if i < |chunks| {
      FlattenPrefix(chunks[..|chunks| - 1], i);
      assert chunks[..|chunks| - 1][..i] == chunks[..i];
    } else {
      assert chunks[..i] == chunks;
    }
  }

  /** However the bytes of a reply are cut into chunks, with whatever after it, the same reply is read, and it is
      read with the chunk that completes it. */
  method ReceiveAnyChunking(m: Message, chunks: seq<seq<Byte>>, number: NumberReader) returns (r: Reply, used: nat)
    requires WellFormed(m) && ReadsDecimals(number) && EncodeMessage(m) <= Flatten(chunks)
    ensures r == Meaning(m)
    ensures 0 < used <= |chunks| && EncodeMessage(m) <= Flatten(chunks[..used])
    ensures forall i :: 0 <= i < used ==> |Flatten(chunks[..i])| < |EncodeMessage(m)|
  {
    r, used := Receive(chunks, number);
    forall i | 0 <= i <= |chunks| ensures Parse(Flatten(chunks[..i]), number) ==
      if |Flatten(chunks[..i])| < |EncodeMessage(m)| then Incomplete else Meaning(m)
    {
      PartlyReceived(m, chunks, i, number);
    }
    assert chunks[..|chunks|] == chunks;
    assert Flatten(chunks[..0]) == [];
    if used > 0 { FlattenPrefix(chunks, used); }
  }

  lemma PartlyReceived(m: Message, chunks: seq<seq<Byte>>, i: nat, number: NumberReader)
    requires WellFormed(m) && ReadsDecimals(number) && EncodeMessage(m) <= Flatten(chunks) && i <= |chunks|
    ensures Parse(Flatten(chunks[..i]), number) ==
            if |Flatten(chunks[..i])| < |EncodeMessage(m)| then Incomplete else Meaning(m)
  {
    var got, sent := Flatten(chunks[..i]), EncodeMessage(m);
    FlattenPrefix(chunks, i);
    if |got| < |sent| {
      assert got == sent[..|got|];
      PrefixIsIncomplete(m, |got|, number);
    } else {
      assert got == sent + got[|sent|..];
      RoundTrip(m, got[|sent|..], number);
    }
  }

  // ---- commands ----

  function EncodeParts(parts: seq<seq<Byte>>): seq<Byte> {
    if parts == [] then [] else EncodeParts(parts[..|parts| - 1]) + EncodeBulk(parts[|parts| - 1])
  }

  function EncodeCommand(parts: seq<seq<Byte>>): seq<Byte> {
    [STAR] + Digits(|parts|) + CRLF + EncodeParts(parts)
  }

  method EncodeRedisCommand(parts: seq<seq<Byte>>) returns (payload: seq<Byte>)
    ensures payload == EncodeCommand(parts)
  {
    payload := [STAR] + Digits(|parts|) + CRLF;
    var i := 0;
    while i < |parts|
      invariant 0 <= i <= |parts|
      invariant payload == [STAR] + Digits(|parts|) + CRLF + EncodeParts(parts[..i])
    {
      assert parts[..i + 1][..i] == parts[..i];
      payload := payload + ([DOLLAR] + Digits(|parts[i]|) + CRLF + (parts[i] + CRLF));
      i := i + 1;
    }
    assert parts[..i] == parts;
  }

  lemma {:induction false} EncodePartsFront(parts: seq<seq<Byte>>)
    requires parts != []
    ensures EncodeParts(parts) == EncodeBulk(parts[0]) + EncodeParts(parts[1..])
  {
    var n := |parts| - 1;
    if n > 0 {
      EncodePartsFront(parts[..n]);
      assert parts[..n][1..] == parts[1..][..n - 1];
    }
  }

  /** Arguments with any bytes in them never run into each other. */
  lemma {:induction false} PartsAreInjective(p: seq<seq<Byte>>, q: seq<seq<Byte>>)
    requires EncodeParts(p) == EncodeParts(q)
    ensures p == q
    decreases |p|
  {
    hide EncodeBulk, EncodeParts, Parse;
    if p != [] && q != [] {
      EncodePartsFront(p);
      EncodePartsFront(q);
      BulkRoundTrip(p[0], EncodeParts(p[1..]), PlainNumber);
      BulkRoundTrip(q[0], EncodeParts(q[1..]), PlainNumber);
      assert EncodeParts(p[1..]) == (EncodeBulk(p[0]) + EncodeParts(p[1..]))[|EncodeBulk(p[0])|..];
      assert EncodeParts(q[1..]) == (EncodeBulk(q[0]) + EncodeParts(q[1..]))[|EncodeBulk(q[0])|..];
      PartsAreInjective(p[1..], q[1..]);
      assert p == [p[0]] + p[1..] && q == [q[0]] + q[1..];
    } else {
      EmptyParts(p);
      EmptyParts(q);
    }
  }

  lemma EmptyParts(p: seq<seq<Byte>>)
    ensures EncodeParts(p) == [] <==> p == []
  {}

  /** Two commands with the same bytes are the same list of arguments. */
  lemma CommandIsInjective(p: seq<seq<Byte>>, q: seq<seq<Byte>>)
    requires EncodeCommand(p) == EncodeCommand(q)
    ensures p == q
  {
    DigitsAreOneLine(Digits(|p|));
    DigitsAreOneLine(Digits(|q|));
    HeaderEnds(STAR, Digits(|p|), EncodeParts(p));
    HeaderEnds(STAR, Digits(|q|), EncodeParts(q));
    var n := |Digits(|p|)| + 3;
    assert n == |Digits(|q|)| + 3;
    assert EncodeParts(p) == EncodeCommand(p)[n..];
    assert EncodeParts(q) == EncodeCommand(q)[n..];
    PartsAreInjective(p, q);
  }
}
