/** Numbers as text: the frontend's hexadecimal bid handles, the keeper's BigInt parser, and decimal fields. */
module HandleCodec {
  import opened Prelude
  import opened CiphertextEncoding

  const DIGITS: string := "0123456789abcdef"

  predicate Base(base: nat) {
    base == 10 || base == 16
  }

  function DigitChar(d: nat): char
    requires d < 16
  {
    DIGITS[d]
  }

  function DigitValue(c: char): Option<nat> {
    if '0' <= c <= '9' then Some(c as nat - '0' as nat)
    else if 'a' <= c <= 'f' then Some(c as nat - 'a' as nat + 10)
    else if 'A' <= c <= 'F' then Some(c as nat - 'A' as nat + 10)
    else None
  }

  /** toString in a base: no leading zeros, lower case. */
  function Print(n: nat, base: nat): string
    requires Base(base)
  {
    if n < base then [DigitChar(n)] else Print(n / base, base) + [DigitChar(n % base)]
  }

  /** The value of a run of digits, None when some character is not a digit of the base. */
  function Read(text: string, base: nat): Option<nat>
    requires Base(base)
  {
    if text == "" then Some(0) else
    var front, last := Read(text[..|text| - 1], base), DigitValue(text[|text| - 1]);
    if front.None? || last.None? || last.value >= base then None else Some(front.value * base + last.value)
  }

  lemma DigitRoundTrip(d: nat)
    requires d < 16
    ensures DigitValue(DigitChar(d)) == Some(d)
  {}

  /** One more digit: the value so far times the base, plus the digit. */
  lemma ReadAppend(text: string, d: nat, base: nat)
    requires Base(base) && d < base && Read(text, base).Some?
    ensures Read(text + [DigitChar(d)], base) == Some(Read(text, base).value * base + d)
  {
    hide DigitValue;
    DigitRoundTrip(d);
    assert (text + [DigitChar(d)])[..|text|] == text;
  }

  lemma QuotientAndRest(n: nat, base: nat)
    requires Base(base)
    ensures n / base * base + n % base == n && (n < base ==> n % base == n)
  {
    if base == 10 {
      assert n / 10 * 10 + n % 10 == n;
    } else {
      assert n / 16 * 16 + n % 16 == n;
    }
  }

  lemma {:induction false} ReadPrint(n: nat, base: nat)
    requires Base(base)
    ensures Read(Print(n, base), base) == Some(n) && Print(n, base) != ""
    decreases n
  {
    hide Read, DigitChar;
    QuotientAndRest(n, base);
    if n < base {
      ReadZeros(0, base);
      assert Zeros(0) == "" && "" + [DigitChar(n)] == Print(n, base);
      ReadAppend("", n, base);
    } else {
      ReadPrint(n / base, base);
      ReadAppend(Print(n / base, base), n % base, base);
    }
  }

  /** Padding in front with zeros changes no value. */
  lemma {:induction false} ReadPadded(zeros: nat, text: string, base: nat)
    requires Base(base)
    ensures Read(Zeros(zeros) + text, base) == Read(text, base)
  {
    if text == "" {
      assert Zeros(zeros) + text == Zeros(zeros);
      ReadZeros(zeros, base);
    } else {
      var n := |text| - 1;
      ReadPadded(zeros, text[..n], base);
      assert (Zeros(zeros) + text)[..|Zeros(zeros) + text| - 1] == Zeros(zeros) + text[..n];
    }
  }

  function Zeros(n: nat): string {
    seq(n, _ => '0')
  }

  lemma {:induction false} ReadZeros(n: nat, base: nat)
    requires Base(base)
    ensures Read(Zeros(n), base) == Some(0)
  {
    if n > 0 {
      assert Zeros(n)[..n - 1] == Zeros(n - 1);
      ReadZeros(n - 1, base);
    }
  }

  function Pow16(k: nat): nat {
    if k == 0 then 1 else 16 * Pow16(k - 1)
  }

  lemma {:induction false} PrintLength(n: nat, k: nat)
    requires k > 0 && n < Pow16(k)
    ensures |Print(n, 16)| <= k
  {
    if n >= 16 {
      assert k > 1;
      PrintLength(n / 16, k - 1);
    }
  }

  lemma {:induction false} Pow16Sum(j: nat, k: nat)
    ensures Pow16(j + k) == Pow16(j) * Pow16(k)
  {
    if j > 0 {
      Pow16Sum(j - 1, k);
      assert 16 * (Pow16(j - 1) * Pow16(k)) == 16 * Pow16(j - 1) * Pow16(k);
    }
  }

  lemma WordHas64Digits()
    ensures Pow16(64) == WORD_LIMIT
  {
    assert Pow16(4) == 0x1_0000;
    Pow16Sum(4, 4);
    Pow16Sum(8, 8);
    Pow16Sum(16, 16);
    Pow16Sum(32, 32);
  }

  function PadTo(text: string, width: nat): string {
    if |text| >= width then text else Zeros(width - |text|) + text
  }

  /** What the frontend sends for a bid; it refuses an amount outside the handle range. */
  function EncodeHandle(value: int): Option<string> {
    if value < 0 || value > MAX_EUINT96 then None
    else Some("0x" + PadTo(Print(EncodeEuint96(value), 16), 64))
  }

  /** JavaScript's BigInt on plain hexadecimal, decimal, signed decimal and empty text; None when it throws. */
  function BigInt(text: string): Option<int> {
    if text == "" then Some(0)
    else if |text| > 2 && text[0] == '0' && (text[1] == 'x' || text[1] == 'X') then
      match Read(text[2..], 16)
      case None => None
      case Some(n) => Some(n)
    else if |text| > 1 && text[0] == '-' then
      match Read(text[1..], 10)
      case None => None
      case Some(n) => var v: int := n; Some(-v)
    else
      match Read(text, 10)
      case None => None
      case Some(n) => Some(n)
  }

  /** The keeper's decoding of a handle; the kind of a negative number is never numeric. */
  function DecodeHandle(text: string): Option<nat> {
    var parsed := BigInt(text);
    if parsed.None? || parsed.value < 0 then None else DecodeNumeric(parsed.value)
  }

  /** From the frontend to the keeper and to the market's adapter: the amount comes back, the handle has a fixed
      width, and exactly the amounts from zero to 2^96 - 1 have one. */
  lemma HandleRoundTrip(value: int)
    ensures EncodeHandle(value).Some? <==> 0 <= value <= MAX_EUINT96
    ensures EncodeHandle(value).Some? ==>
              var text := EncodeHandle(value).value;
              && |text| == 66 && text[..2] == "0x"
              && BigInt(text) == Some(EncodeEuint96(value))
              && DecodeHandle(text) == Some(value)
  {
    if 0 <= value <= MAX_EUINT96 {
      var handle := EncodeEuint96(value);
      var digits := Print(handle, 16);
      DecodeEncode(value);
      ReadPrint(handle, 16);
      WordHas64Digits();
      PrintLength(handle, 64);
      ReadPadded(64 - |digits|, digits, 16);
      var text := EncodeHandle(value).value;
      assert text[2..] == Zeros(64 - |digits|) + digits;
      assert BigInt(text) == Some(handle);
    }
  }

  /** Different amounts never share a handle. */
  lemma HandlesAreInjective(a: int, b: int)
    requires EncodeHandle(a).Some? && EncodeHandle(a) == EncodeHandle(b)
    ensures a == b
  {
    HandleRoundTrip(a);
    HandleRoundTrip(b);
  }

  /** Decimal fields: what BigInt prints it reads back. */
  lemma DecimalRoundTrip(n: nat)
    ensures BigInt(Print(n, 10)) == Some(n)
  {
    ReadPrint(n, 10);
    PrintDigits(n);
  }

  lemma {:induction false} PrintDigits(n: nat)
    ensures forall i :: 0 <= i < |Print(n, 10)| ==> '0' <= Print(n, 10)[i] <= '9'
    decreases n
  {
    if n >= 10 { PrintDigits(n / 10); }
  }
}
