/** Base 16, 32 and 64 (lib/util/basen.h). */
module BaseN {
  import opened Wrappers
  import opened Arithmetic
  import opened Bits
  import opened Shifts

  // ----- the alphabets

  datatype Base = Base16 | Base32 | Base64 {
    function GroupLength(): (g: nat)
      ensures 4 <= g <= 6
    {
      match this
      case Base16 => 4
      case Base32 => 5
      case Base64 => 6
    }

    function Size(): (n: nat)
      ensures n == Pow2(GroupLength())
    {
      match this
      case Base16 => 16
      case Base32 => 32
      case Base64 => 64
    }

    function Dictionary(): (s: string)
      ensures |s| == Size()
    {
      match this
      case Base16 => "0123456789ABCDEF"
      case Base32 => "ABCDEFGHIJKLMNOPQRSTUVWXYZ" + "234567"
      case Base64 => "ABCDEFGHIJKLMNOPQRSTUVWXYZ" + "abcdefghijklmnopqrstuvwxyz" + "0123456789+/"
    }

    /** The value of a character; None is the error value. */
    function Decode(c: char): (v: Option<nat>)
      ensures v.Some? ==> v.value < Size()
    {
      match this
      case Base16 =>
        if '0' <= c <= '9' then Some(c as int - '0' as int)
        else if 'A' <= c <= 'F' then Some(c as int - 'A' as int + 10)
        else None
      case Base32 =>
        if 'A' <= c <= 'Z' then Some(c as int - 'A' as int)
        else if '2' <= c <= '7' then Some(c as int - '2' as int + 26)
        else None
      case Base64 =>
        if 'A' <= c <= 'Z' then Some(c as int - 'A' as int)
        else if 'a' <= c <= 'z' then Some(c as int - 'a' as int + 26)
        else if '0' <= c <= '9' then Some(c as int - '0' as int + 52)
        else if c == '+' then Some(62)
        else if c == '/' then Some(63)
        else None
    }
  }

  predicate IsSpace(c: char) {
    c == ' ' || '\t' <= c <= '\r'
  }

  /** The value that decoding reads from a character; spaces and unknown characters are skipped. */
  function DigitOf(b: Base, c: char): (v: Option<nat>)
    ensures v.Some? ==> v.value < b.Size()
  {
    if IsSpace(c) then None else b.Decode(c)
  }

  /** The character of the alphabet at a place decodes to that place, and no other character does. */
  lemma AlphabetDecodes(b: Base, v: nat, c: char)
    requires v < b.Size()
    ensures DigitOf(b, c) == Some(v) <==> c == b.Dictionary()[v]
  {
    match b
    case Base16 => Alphabet16(v);
    case Base32 => Alphabet32(v);
    case Base64 => Alphabet64(v);
    if DigitOf(b, c) == Some(v) {
      DecodeInjective(b, c, b.Dictionary()[v]);
    }
  }

  lemma DecodeInjective(b: Base, c: char, d: char)
    requires b.Decode(c).Some? && b.Decode(c) == b.Decode(d)
    ensures c == d
  {
  }

  /** encode of the alphabets. */
  method EncodeDigit(b: Base, v: nat) returns (c: char)
    requires v < b.Size()
    ensures DigitOf(b, c) == Some(v)
  {
    c := b.Dictionary()[v];
    AlphabetDecodes(b, v, c);
  }

  lemma Alphabet16(v: nat)
    requires v < 16
    ensures DigitOf(Base16, Base16.Dictionary()[v]) == Some(v)
  {
  }

  lemma Alphabet32(v: nat)
    requires v < 32
    ensures DigitOf(Base32, Base32.Dictionary()[v]) == Some(v)
  {
    if v < 26 {
      UpperCase(v);
    }
  }

  lemma Alphabet64(v: nat)
    requires v < 64
    ensures DigitOf(Base64, Base64.Dictionary()[v]) == Some(v)
  {
    if v < 26 {
      UpperCase(v);
    } else if v < 52 {
      LowerCase(v - 26);
    }
  }

  lemma UpperCase(v: nat)
    requires v < 26
    ensures "ABCDEFGHIJKLMNOPQRSTUVWXYZ"[v] as int == 'A' as int + v
  {
  }

  lemma LowerCase(v: nat)
    requires v < 26
    ensures "abcdefghijklmnopqrstuvwxyz"[v] as int == 'a' as int + v
  {
  }

  // ----- streams of bits

  /** The n low bits of v, the most significant first. */
  function BitsOf(v: nat, n: nat): (r: seq<bool>)
    ensures |r| == n
  {
    if n == 0 then [] else BitsOf(v / 2, n - 1) + [v % 2 == 1]
  }

  /** The bits of a sequence of numbers of w bits each. */
  function Stream(ds: seq<nat>, w: nat): (r: seq<bool>) {
    if ds == [] then [] else Stream(ds[..|ds| - 1], w) + BitsOf(ds[|ds| - 1], w)
  }

  function Zeros(n: nat): (r: seq<bool>) {
    seq(n, _ => false)
  }

  /** A number is cut in two between any two of its bits. */
  lemma {:induction false} BitsOfConcat(v: nat, g: nat, x: nat, n: nat, y: nat, k: nat)
    requires y < Pow2(k) && v == Shl(x, k) + y && g == n + k
    ensures BitsOf(v, g) == BitsOf(x, n) + BitsOf(y, k)
  {
    if k > 0 {
      assert v / 2 == Shl(x, k - 1) + y / 2 && v % 2 == y % 2;
      BitsOfConcat(v / 2, g - 1, x, n, y / 2, k - 1);
    }
  }

  lemma BitsOfSplit(v: nat, n: nat, k: nat)
    ensures BitsOf(v, n + k) == BitsOf(Shr(v, k), n) + BitsOf(Low(v, k), k)
  {
    Split(v, k);
    BitsOfConcat(v, n + k, Shr(v, k), n, Low(v, k), k);
  }

  lemma {:induction false} BitsOfZero(n: nat)
    ensures BitsOf(0, n) == Zeros(n)
  {
    if n > 0 {
      BitsOfZero(n - 1);
    }
  }

  lemma {:induction false} BitsOfInjective(x: nat, y: nat, n: nat)
    requires x < Pow2(n) && y < Pow2(n) && BitsOf(x, n) == BitsOf(y, n)
    ensures x == y
  {
    if n > 0 {
      var a, b := BitsOf(x, n), BitsOf(y, n);
      assert a[..n - 1] == BitsOf(x / 2, n - 1) && b[..n - 1] == BitsOf(y / 2, n - 1);
      assert a[n - 1] == (x % 2 == 1) && b[n - 1] == (y % 2 == 1);
      BitsOfInjective(x / 2, y / 2, n - 1);
    }
  }

  lemma StreamAppend(ds: seq<nat>, d: nat, w: nat)
    ensures Stream(ds + [d], w) == Stream(ds, w) + BitsOf(d, w)
  {
    assert (ds + [d])[..|ds|] == ds;
  }

  lemma {:induction false} StreamPrepend(d: nat, ds: seq<nat>, w: nat)
    ensures Stream([d] + ds, w) == BitsOf(d, w) + Stream(ds, w)
  {
    if ds == [] {
      assert [d] + ds == [] + [d];
      StreamAppend([], d, w);
    } else {
      var init, last := ds[..|ds| - 1], ds[|ds| - 1];
      StreamPrepend(d, init, w);
      StreamAppend([d] + init, last, w);
      assert [d] + ds == [d] + init + [last];
    }
  }

  lemma {:induction false} StreamLength(ds: seq<nat>, w: nat)
    ensures |Stream(ds, w)| == |ds| * w
  {
    if ds != [] {
      StreamLength(ds[..|ds| - 1], w);
      Distribute(|ds| - 1, 1, w);
    }
  }

  lemma {:induction false} StreamInjective(a: seq<nat>, b: seq<nat>, w: nat)
    requires |a| == |b| && Stream(a, w) == Stream(b, w)
    requires forall i :: 0 <= i < |a| ==> a[i] < Pow2(w) && b[i] < Pow2(w)
    ensures a == b
  {
    if a != [] {
      var n := |a| - 1;
      StreamLength(a[..n], w);
      StreamLength(b[..n], w);
      var k := n * w;
      assert Stream(a, w)[..k] == Stream(a[..n], w) && Stream(b, w)[..k] == Stream(b[..n], w);
      assert Stream(a, w)[k..] == BitsOf(a[n], w) && Stream(b, w)[k..] == BitsOf(b[n], w);
      StreamInjective(a[..n], b[..n], w);
      BitsOfInjective(a[n], b[n], w);
    }
  }

  // ----- texts

  function ReadDigit(b: Base, ds: seq<nat>, c: char): (r: seq<nat>) {
    match DigitOf(b, c)
    case Some(v) => ds + [v]
    case None => ds
  }

  /** The digits that decoding reads. */
  function DigitsIn(b: Base, text: string): (ds: seq<nat>)
    ensures forall i :: 0 <= i < |ds| ==> ds[i] < b.Size()
  {
    if text == [] then [] else ReadDigit(b, DigitsIn(b, text[..|text| - 1]), text[|text| - 1])
  }

  /** The text spells the digits, and padding fills it up. */
  ghost predicate Spells(b: Base, ds: seq<nat>, text: string) {
    && |ds| <= |text|
    && (forall i :: 0 <= i < |ds| ==> DigitOf(b, text[i]) == Some(ds[i]))
    && (forall i :: |ds| <= i < |text| ==> text[i] == '=')
  }

  lemma DigitsAppend(b: Base, text: string, c: char)
    ensures DigitsIn(b, text + [c]) == ReadDigit(b, DigitsIn(b, text), c)
  {
    assert (text + [c])[..|text|] == text;
  }

  /** The bytes that one round of groups holds, and the characters that it takes: sections 8, 6 and 4 of RFC 4648. */
  function RoundBytes(b: Base): (n: nat)
    ensures 0 < n
  {
    match b
    case Base16 => 1
    case Base32 => 5
    case Base64 => 3
  }

  function RoundChars(b: Base): (n: nat)
    ensures 0 < n && n * b.GroupLength() == 8 * RoundBytes(b)
  {
    match b
    case Base16 => 2
    case Base32 => 8
    case Base64 => 4
  }

  function EncodedLength(b: Base, n: nat): (r: nat) {
    (n + RoundBytes(b) - 1) / RoundBytes(b) * RoundChars(b)
  }

  /** The text is the encoding of data: the bits of the digits are the bits of the data, filled up with fewer zeros
      than make a digit, and padding fills up the round. */
  ghost predicate EncodesTo(b: Base, data: seq<nat>, text: string) {
    var ds := DigitsIn(b, text);
    && |text| == EncodedLength(b, |data|) && Spells(b, ds, text)
    && 0 <= |ds| * b.GroupLength() - 8 * |data| < b.GroupLength()
    && Stream(ds, b.GroupLength()) == Stream(data, 8) + Zeros(|ds| * b.GroupLength() - 8 * |data|)
  }

  /** The bytes are what the text decodes to: the bits of its digits, but for those after the last whole byte. */
  ghost predicate DecodesTo(b: Base, text: string, data: seq<nat>) {
    var bits := Stream(DigitsIn(b, text), b.GroupLength());
    Stream(data, 8) == bits[..|bits| / 8 * 8]
  }

  predicate AllBytes(data: seq<nat>) {
    forall i :: 0 <= i < |data| ==> data[i] < 256
  }

  /** Decoding gives back what was encoded. */
  lemma RoundTrip(b: Base, data: seq<nat>, text: string, decoded: seq<nat>)
    requires AllBytes(data) && AllBytes(decoded)
    requires EncodesTo(b, data, text) && DecodesTo(b, text, decoded)
    ensures decoded == data
  {
    var ds, g := DigitsIn(b, text), b.GroupLength();
    StreamLength(ds, g);
    StreamLength(data, 8);
    StreamLength(decoded, 8);
    var n := |ds| * g;
    assert n / 8 * 8 == 8 * |data|;
    assert Stream(ds, g)[..8 * |data|] == Stream(data, 8);
    assert Pow2(8) == 256;
    StreamInjective(decoded, data, 8);
  }

  // ----- decoding

  /** The decoder: the bytes written, and a number of bits pending in the upper bits of the buffer. */
  datatype Decoder = Decoder(out: seq<nat>, buffer: nat, output_current_bit: nat) {
    ghost predicate Holds(t: nat, bits: seq<bool>) {
      && AllBytes(out) && output_current_bit < 8 && Pending(buffer, output_current_bit, t)
      && bits == Stream(out, 8) + BitsOf(t, output_current_bit)
    }
  }

  /** The k upper bits of the buffer hold t, and the others are clear. */
  ghost predicate Pending(buffer: nat, k: nat, t: nat)
    requires k <= 8
  {
    t < Pow2(k) && buffer == Shl(t, 8 - k)
  }

  /** The value fits within the current byte. */
  method PutWithin(g: nat, value: nat, d: Decoder, ghost t: nat, ghost bits: seq<bool>)
      returns (d': Decoder, ghost t': nat)
    requires d.Holds(t, bits) && d.output_current_bit + g <= 8 && value < Pow2(g)
    ensures d'.Holds(t', bits + BitsOf(value, g))
  {
    var k := d.output_current_bit;
    FillWithin(g, value, d.buffer, k, t);
    t' := Shl(t, g) + value;
    var buffer := BitOr(d.buffer, Shl(value, 8 - k - g));
    Regroup(Stream(d.out, 8), BitsOf(t, k), BitsOf(value, g), BitsOf(t', k + g), []);
    if k + g == 8 {
      ByteSize();
      StreamAppend(d.out, buffer, 8);
      d' := Decoder(d.out + [buffer], 0, 0);
      t' := 0;
    } else {
      d' := Decoder(d.out, buffer, k + g);
    }
  }

  lemma Regroup(s: seq<bool>, t: seq<bool>, v: seq<bool>, b: seq<bool>, l: seq<bool>)
    requires t + v == b + l
    ensures (s + t) + v == (s + b) + l
  {
    assert (s + t) + v == s + (t + v);
    assert (s + b) + l == s + (b + l);
  }

  lemma FillWithin(g: nat, value: nat, buffer: nat, k: nat, t: nat)
    requires k + g <= 8 && value < Pow2(g) && Pending(buffer, k, t)
    ensures Pending(BitOr(buffer, Shl(value, 8 - k - g)), k + g, Shl(t, g) + value)
    ensures BitsOf(Shl(t, g) + value, k + g) == BitsOf(t, k) + BitsOf(value, g)
  {
    OrGroup(t, g, value, 8 - k - g);
    ShlBound(t, k, value, g);
    BitsOfConcat(Shl(t, g) + value, k + g, t, k, value, g);
  }

  lemma OrGroup(t: nat, g: nat, value: nat, j: nat)
    requires value < Pow2(g)
    ensures BitOr(Shl(t, g + j), Shl(value, j)) == Shl(Shl(t, g) + value, j)
  {
    ShlBound(value, g, 0, j);
    OrShl(t, g + j, Shl(value, j));
    ShlShl(t, g, j);
    ShlAdd(Shl(t, g), value, j);
  }

  /** The value spans across the current and the next byte. */
  method PutAcross(g: nat, value: nat, d: Decoder, ghost t: nat, ghost bits: seq<bool>)
      returns (d': Decoder, ghost t': nat)
    requires d.Holds(t, bits) && d.output_current_bit + g > 8 && g <= 8 && value < Pow2(g)
    ensures d'.Holds(t', bits + BitsOf(value, g))
  {
    var bits_in_next_byte := g - (8 - d.output_current_bit);
    FillAcross(g, value, d.buffer, d.output_current_bit, t);
    var buffer := BitOr(d.buffer, Shr(value, bits_in_next_byte));
    StreamAppend(d.out, buffer, 8);
    t' := Low(value, bits_in_next_byte);
    OrZero(Shl(value, 8 - bits_in_next_byte) % 256);
    Regroup(Stream(d.out, 8), BitsOf(t, d.output_current_bit), BitsOf(value, g), BitsOf(buffer, 8),
            BitsOf(t', bits_in_next_byte));
    d' := Decoder(d.out + [buffer], BitOr(0, Shl(value, 8 - bits_in_next_byte) % 256), bits_in_next_byte);
  }

  lemma FillAcross(g: nat, value: nat, buffer: nat, k: nat, t: nat)
    requires k < 8 < k + g && g <= 8 && value < Pow2(g) && Pending(buffer, k, t)
    ensures var n := k + g - 8;
            && BitOr(buffer, Shr(value, n)) < 256
            && BitsOf(BitOr(buffer, Shr(value, n)), 8) + BitsOf(Low(value, n), n) == BitsOf(t, k) + BitsOf(value, g)
            && Pending(Shl(value, 8 - n) % 256, n, Low(value, n))
  {
    var n := k + g - 8;
    ShrBound(value, 8 - k, n);
    FillByte(BitOr(buffer, Shr(value, n)), t, k, Shr(value, n));
    BitsOfSplit(value, 8 - k, n);
    NextPending(value, n, 8);
    Regroup(BitsOf(t, k), BitsOf(Shr(value, n), 8 - k), BitsOf(Low(value, n), n), BitsOf(value, g), []);
  }

  lemma FillByte(r: nat, t: nat, k: nat, hi: nat)
    requires k <= 8 && t < Pow2(k) && hi < Pow2(8 - k) && r == BitOr(Shl(t, 8 - k), hi)
    ensures r < 256 && BitsOf(r, 8) == BitsOf(t, k) + BitsOf(hi, 8 - k)
  {
    OrShl(t, 8 - k, hi);
    ByteSize();
    JoinBits(r, t, k, hi, 8 - k, 8);
  }

  lemma NextPending(value: nat, n: nat, w: nat)
    requires n <= w == 8
    ensures Pending(Shl(value, 8 - n) % 256, n, Low(value, n))
  {
    ToByte(Shl(value, w - n), w);
    LowOfShl(value, w - n, 0, n);
  }

  method PutGroup(g: nat, value: nat, d: Decoder, ghost t: nat, ghost bits: seq<bool>)
      returns (d': Decoder, ghost t': nat)
    requires d.Holds(t, bits) && g <= 8 && value < Pow2(g)
    ensures d'.Holds(t', bits + BitsOf(value, g))
  {
    var bits_in_current_byte := Min(d.output_current_bit + g, 8) - d.output_current_bit;
    if bits_in_current_byte == g {
      d', t' := PutWithin(g, value, d, t, bits);
    } else {
      d', t' := PutAcross(g, value, d, t, bits);
    }
  }

  /** Malformed data and spaces are skipped. */
  method PutChar(b: Base, c: char, d: Decoder, ghost t: nat, ghost ds: seq<nat>) returns (d': Decoder, ghost t': nat)
    requires d.Holds(t, Stream(ds, b.GroupLength()))
    ensures d'.Holds(t', Stream(ReadDigit(b, ds, c), b.GroupLength()))
  {
    d', t' := d, t;
    if IsSpace(c) {
      return;
    }
    var value := b.Decode(c);
    if value.None? {
      return;
    }
    StreamAppend(ds, value.value, b.GroupLength());
    d', t' := PutGroup(b.GroupLength(), value.value, d, t, Stream(ds, b.GroupLength()));
  }

  /** decode. */
  method Decode(b: Base, text: string) returns (out: seq<nat>)
    ensures AllBytes(out) && DecodesTo(b, text, out)
  {
    var d := Decoder([], 0, 0);
    ghost var t, ds: seq<nat> := 0, [];
    for i := 0 to |text|
      invariant ds == DigitsIn(b, text[..i]) && d.Holds(t, Stream(ds, b.GroupLength()))
    {
      DigitsAppend(b, text[..i], text[i]);
      assert text[..i] + [text[i]] == text[..i + 1];
      d, t := PutChar(b, text[i], d, t, ds);
      ds := ReadDigit(b, ds, text[i]);
    }
    assert text[..|text|] == text;
    WholeBytes(Stream(ds, b.GroupLength()), d.out, BitsOf(t, d.output_current_bit));
    return d.out;
  }

  lemma WholeBytes(bits: seq<bool>, out: seq<nat>, tail: seq<bool>)
    requires bits == Stream(out, 8) + tail && |tail| < 8
    ensures Stream(out, 8) == bits[..|bits| / 8 * 8]
  {
    StreamLength(out, 8);
  }

  // ----- encoding

  /** extract_partial_bits: the bits from start_bit on. */
  method ExtractPartialBits(value: nat, start_bit: nat, bits_count: nat) returns (r: nat)
    requires start_bit + bits_count < 8
    ensures r < Pow2(bits_count)
    ensures BitsOf(Low(value, 8 - start_bit), 8 - start_bit) ==
              BitsOf(r, bits_count) + BitsOf(Low(value, 8 - start_bit - bits_count), 8 - start_bit - bits_count)
  {
    var t1 := Shr(value, 8 - bits_count - start_bit);
    r := BitAnd(t1, Pow2(bits_count) - 1);
    PartialBits(value, t1, r, 8 - bits_count - start_bit, bits_count, 8 - start_bit);
  }

  lemma PartialBits(value: nat, t1: nat, r: nat, k: nat, g: nat, w: nat)
    requires t1 == Shr(value, k) && r == BitAnd(t1, Pow2(g) - 1) && w == g + k
    ensures r < Pow2(g) && BitsOf(Low(value, w), w) == BitsOf(r, g) + BitsOf(Low(value, k), k)
  {
    AndLow(t1, g);
    LowOfShr(value, g, k);
    LowOfLow(value, k, w);
    Split(Low(value, w), k);
    BitsOfConcat(Low(value, w), w, r, g, Low(value, k), k);
  }

  /** extract_overlapping_bits: the bits of previous from start_bit on, and the first bits of next. */
  method ExtractOverlappingBits(previous: nat, next: nat, start_bit: nat, bits_count: nat) returns (r: nat)
    requires start_bit < 8 <= start_bit + bits_count && bits_count <= 8 && next < 256
    ensures r < Pow2(bits_count)
    ensures BitsOf(r, bits_count) ==
              BitsOf(Low(previous, 8 - start_bit), 8 - start_bit) +
              BitsOf(Shr(next, 16 - start_bit - bits_count), start_bit + bits_count - 8)
  {
    var bits_count_in_previous := 8 - start_bit;
    var bits_count_in_next := bits_count - bits_count_in_previous;
    var t1 := Shl(previous, bits_count_in_next) % 256;
    var t2 := BitAnd(Shr(next, 8 - bits_count_in_next), Pow2(bits_count_in_next) - 1);
    r := BitAnd(BitOr(t1, t2), Pow2(bits_count) - 1);
    ghost var byte := 8;
    assert 16 - start_bit - bits_count == byte - bits_count_in_next;
    OverlappingBits(previous, next, t1, t2, r, bits_count_in_previous, bits_count_in_next, byte, bits_count);
  }

  lemma OverlappingBits(previous: nat, next: nat, t1: nat, t2: nat, r: nat, k: nat, n: nat, w: nat, g: nat)
    requires k + n == g <= w == 8 && next < 256
    requires t1 == Shl(previous, n) % 256 && t2 == BitAnd(Shr(next, w - n), Pow2(n) - 1)
    requires r == BitAnd(BitOr(t1, t2), Pow2(g) - 1)
    ensures r < Pow2(g) && BitsOf(r, g) == BitsOf(Low(previous, k), k) + BitsOf(Shr(next, w - n), n)
  {
    ByteSize();
    NextBits(next, n, w);
    ToByte(Shl(previous, n), w);
    PreviousBits(previous, n, t2, k, w, g);
    JoinBits(r, Low(previous, k), k, t2, n, g);
  }

  lemma JoinBits(v: nat, x: nat, j: nat, y: nat, k: nat, g: nat)
    requires x < Pow2(j) && y < Pow2(k) && v == Shl(x, k) + y && g == j + k
    ensures v < Pow2(g) && BitsOf(v, g) == BitsOf(x, j) + BitsOf(y, k)
  {
    ShlBound(x, j, y, k);
    BitsOfConcat(v, g, x, j, y, k);
  }

  lemma ToByte(v: nat, w: nat)
    requires w == 8
    ensures v % 256 == Low(v, w)
  {
    ShiftsArePowers(v, w);
    ByteSize();
    ModUnique(v, 256, Shr(v, w), Low(v, w));
  }

  lemma NextBits(next: nat, n: nat, w: nat)
    requires next < Pow2(w) && n <= w
    ensures Shr(next, w - n) < Pow2(n) && BitAnd(Shr(next, w - n), Pow2(n) - 1) == Shr(next, w - n)
  {
    ShrBound(next, n, w - n);
    AndLow(Shr(next, w - n), n);
    LowSmall(Shr(next, w - n), n);
  }

  lemma PreviousBits(previous: nat, n: nat, t: nat, k: nat, w: nat, g: nat)
    requires k + n == g <= w && t < Pow2(n)
    ensures BitAnd(BitOr(Low(Shl(previous, n), w), t), Pow2(g) - 1) == Shl(Low(previous, k), n) + t
  {
    calc {
      BitAnd(BitOr(Low(Shl(previous, n), w), t), Pow2(g) - 1);
      { LowOfShl(previous, n, 0, w - n); }
      BitAnd(BitOr(Shl(Low(previous, w - n), n), t), Pow2(g) - 1);
      { MaskOr(Low(previous, w - n), n, t, k, g); }
      Shl(Low(Low(previous, w - n), k), n) + t;
      { LowOfLow(previous, k, w - n); }
      Shl(Low(previous, k), n) + t;
    }
  }

  lemma MaskOr(l: nat, n: nat, t: nat, k: nat, g: nat)
    requires t < Pow2(n) && g == k + n
    ensures BitAnd(BitOr(Shl(l, n), t), Pow2(g) - 1) == Shl(Low(l, k), n) + t
  {
    calc {
      BitAnd(BitOr(Shl(l, n), t), Pow2(g) - 1);
      { OrShl(l, n, t); }
      BitAnd(Shl(l, n) + t, Pow2(g) - 1);
      { AndLow(Shl(l, n) + t, g); }
      Low(Shl(l, n) + t, g);
      { LowOfShl(l, n, t, k); }
      Shl(Low(l, k), n) + t;
    }
  }

  /** The bits that are left from bit s of byte i on. */
  ghost function Rest(data: seq<nat>, i: nat, s: nat): (r: seq<bool>)
    requires i < |data| && s < 8
  {
    BitsOf(Low(data[i], 8 - s), 8 - s) + Stream(data[i + 1..], 8)
  }

  /** The digits written are the bits before bit s of byte i; behind the last byte come zeros. */
  ghost predicate Written(data: seq<nat>, ds: seq<nat>, g: nat, i: nat, s: nat) {
    && i <= |data| && s < 8
    && (i < |data| ==> Stream(ds, g) + Rest(data, i, s) == Stream(data, 8))
    && (i == |data| ==> s < g && Stream(ds, g) == Stream(data, 8) + Zeros(s))
  }

  lemma NothingWritten(data: seq<nat>, g: nat)
    requires AllBytes(data) && 0 < g
    ensures Written(data, [], g, 0, 0)
  {
    if data != [] {
      assert data == [data[0]] + data[1..];
      StreamPrepend(data[0], data[1..], 8);
      ByteSize();
      LowSmall(data[0], 8);
      assert [] + Rest(data, 0, 0) == Stream(data, 8);
    } else {
      assert Stream(data, 8) + Zeros(0) == [];
    }
  }

  lemma WritePartial(data: seq<nat>, ds: seq<nat>, g: nat, i: nat, s: nat, v: nat)
    requires Written(data, ds, g, i, s) && i < |data| && s + g < 8
    requires BitsOf(Low(data[i], 8 - s), 8 - s) == BitsOf(v, g) + BitsOf(Low(data[i], 8 - s - g), 8 - s - g)
    ensures Written(data, ds + [v], g, i, s + g)
  {
    StreamAppend(ds, v, g);
    Move(Stream(ds, g), BitsOf(v, g), BitsOf(Low(data[i], 8 - s - g), 8 - s - g), Stream(data[i + 1..], 8));
  }

  lemma Move(a: seq<bool>, b: seq<bool>, c: seq<bool>, d: seq<bool>)
    ensures a + ((b + c) + d) == (a + b) + (c + d)
  {
  }

  lemma WriteOverlapping(data: seq<nat>, ds: seq<nat>, g: nat, i: nat, s: nat, n: nat, next: nat, v: nat)
    requires AllBytes(data) && Written(data, ds, g, i, s) && i < |data| && s + g == 8 + n && g < 8
    requires next == if i + 1 < |data| then data[i + 1] else 0
    requires BitsOf(v, g) == BitsOf(Low(data[i], 8 - s), 8 - s) + BitsOf(Shr(next, 8 - n), n)
    ensures Written(data, ds + [v], g, i + 1, n)
  {
    var last, first := BitsOf(Low(data[i], 8 - s), 8 - s), BitsOf(Shr(next, 8 - n), n);
    StreamAppend(ds, v, g);
    if i + 1 < |data| {
      NextByte(data, i, n);
      MoveAcross(Stream(ds, g), last, first, Rest(data, i + 1, n));
    } else {
      ZeroBits(8 - n, n);
      assert data[i + 1..] == [];
      MoveAcross(Stream(ds, g), last, first, []);
      assert first + [] == first && last + [] == last;
      assert Stream(ds, g) + last + first == Stream(ds, g) + (last + first);
    }
  }

  lemma MoveAcross(a: seq<bool>, b: seq<bool>, c: seq<bool>, d: seq<bool>)
    ensures a + (b + (c + d)) == (a + (b + c)) + d
  {
  }

  /** The bits of a byte before bit n, and the rest. */
  lemma NextByte(data: seq<nat>, i: nat, n: nat)
    requires AllBytes(data) && i + 1 < |data| && n < 8
    ensures Stream(data[i + 1..], 8) == BitsOf(Shr(data[i + 1], 8 - n), n) + Rest(data, i + 1, n)
  {
    assert data[i + 1..] == [data[i + 1]] + data[i + 2..];
    StreamPrepend(data[i + 1], data[i + 2..], 8);
    ByteBits(data[i + 1], Stream(data[i + 2..], 8), n, 8);
  }

  lemma ByteBits(v: nat, rest: seq<bool>, n: nat, w: nat)
    requires n < w
    ensures BitsOf(v, w) + rest == BitsOf(Shr(v, w - n), n) + (BitsOf(Low(v, w - n), w - n) + rest)
  {
    BitsOfSplit(v, n, w - n);
    MoveAcross([], BitsOf(Shr(v, w - n), n), BitsOf(Low(v, w - n), w - n), rest);
  }

  lemma {:induction false} ZeroBits(k: nat, n: nat)
    ensures Shr(0, k) == 0 && BitsOf(Shr(0, k), n) == Zeros(n)
  {
    if k > 0 {
      ZeroBits(k - 1, n);
    }
    BitsOfZero(n);
  }

  /** How many more characters fill up the round, s bits into a byte. */
  function PadsLeft(b: Base, s: nat): (n: nat) {
    match b
    case Base16 => s / 4
    case Base32 => 5 * (8 - s) % 8
    case Base64 => s / 2
  }

  /** The bits into a byte that a base can reach. */
  predicate Reachable(b: Base, s: nat) {
    s < 8 && match b
      case Base16 => s % 4 == 0
      case Base32 => true
      case Base64 => s % 2 == 0
  }

  lemma PadStep(b: Base, s: nat)
    requires Reachable(b, s)
    ensures Reachable(b, (s + b.GroupLength()) % 8)
    ensures s == 0 ==> PadsLeft(b, s) == 0
    ensures s != 0 ==> PadsLeft(b, s) == PadsLeft(b, (s + b.GroupLength()) % 8) + 1
  {
  }

  lemma NextBit(b: Base, s: nat)
    requires Reachable(b, s)
    ensures Reachable(b, (s + b.GroupLength()) % 8)
    ensures (s + b.GroupLength()) % 8 ==
              if s + b.GroupLength() < 8 then s + b.GroupLength() else s + b.GroupLength() - 8
  {
  }

  lemma LengthIsRounds(b: Base, n: nat, k: nat, s: nat)
    requires k * b.GroupLength() == 8 * n + s && s < b.GroupLength() && Reachable(b, s)
    ensures k + PadsLeft(b, s) == EncodedLength(b, n)
  {
    match b
    case Base16 =>
    case Base32 => Length32(n, k, s);
    case Base64 => Length64(n, k, s);
  }

  lemma Length32(n: nat, k: nat, s: nat)
    requires 5 * k == 8 * n + s && s < 5
    ensures k + 5 * (8 - s) % 8 == (n + 4) / 5 * 8
  {
    var m, r := n / 5, n % 5;
    assert 5 * (k - 8 * m) == 8 * r + s;
    assert (n + 4) / 5 == if r == 0 then m else m + 1;
  }

  lemma Length64(n: nat, k: nat, s: nat)
    requires 6 * k == 8 * n + s && s < 6
    ensures k + s / 2 == (n + 2) / 3 * 4
  {
    var m, r := n / 3, n % 3;
    assert 6 * (k - 4 * m) == 8 * r + s;
    assert (n + 2) / 3 == if r == 0 then m else m + 1;
  }

  lemma {:induction false} SpelledDigits(b: Base, ds: seq<nat>, text: string)
    requires Spells(b, ds, text)
    ensures DigitsIn(b, text) == ds
  {
    if text != [] {
      var n := |text| - 1;
      assert text == text[..n] + [text[n]];
      DigitsAppend(b, text[..n], text[n]);
      if |ds| == |text| {
        SpelledDigits(b, ds[..n], text[..n]);
      } else {
        assert DigitOf(b, '=') == None;
        SpelledDigits(b, ds, text[..n]);
      }
    }
  }

  /** The characters written so far spell the digits. */
  ghost predicate Emitted(b: Base, data: seq<nat>, ds: seq<nat>, text: string, i: nat, s: nat) {
    Spells(b, ds, text) && |text| == |ds| && Written(data, ds, b.GroupLength(), i, s)
  }

  method EmitDigit(b: Base, v: nat, text: string, ghost ds: seq<nat>) returns (text': string, ghost ds': seq<nat>)
    requires v < b.Size() && Spells(b, ds, text) && |text| == |ds|
    ensures Spells(b, ds', text') && |text'| == |ds'| && ds' == ds + [v]
  {
    var c := EncodeDigit(b, v);
    text', ds' := text + [c], ds + [v];
  }

  /** The value fits within a single byte. */
  method EncodeWithin(b: Base, data: seq<nat>, i: nat, s: nat, text: string, ghost ds: seq<nat>)
      returns (text': string, ghost ds': seq<nat>)
    requires i < |data| && s + b.GroupLength() < 8 && Emitted(b, data, ds, text, i, s)
    ensures Emitted(b, data, ds', text', i, s + b.GroupLength())
  {
    var v := ExtractPartialBits(data[i], s, b.GroupLength());
    WritePartial(data, ds, b.GroupLength(), i, s, v);
    text', ds' := EmitDigit(b, v, text, ds);
  }

  /** The value spans across the byte border; behind the last byte come zeros. */
  method EncodeAcross(b: Base, data: seq<nat>, i: nat, s: nat, backlog: nat, text: string, ghost ds: seq<nat>)
      returns (text': string, ghost ds': seq<nat>)
    requires AllBytes(data) && i < |data| && backlog == data[i] && s < 8 <= s + b.GroupLength()
             && Emitted(b, data, ds, text, i, s)
    ensures Emitted(b, data, ds', text', i + 1, s + b.GroupLength() - 8)
  {
    var g := b.GroupLength();
    var next := if i + 1 == |data| then 0 else data[i + 1];
    var v := ExtractOverlappingBits(backlog, next, s, g);
    assert Written(data, ds + [v], g, i + 1, s + g - 8) by {
      WriteOverlapping(data, ds, g, i, s, s + g - 8, next, v);
    }
    text', ds' := EmitDigit(b, v, text, ds);
  }

  /** The characters of the digits, and the bits into a byte at which they end. */
  method EncodeGroups(b: Base, data: seq<nat>) returns (text: string, start_bit: nat, ghost ds: seq<nat>)
    requires AllBytes(data)
    ensures Emitted(b, data, ds, text, |data|, start_bit) && Reachable(b, start_bit)
  {
    var i, has_backlog, backlog := 0, false, 0;
    text, start_bit, ds := [], 0, [];
    NothingWritten(data, b.GroupLength());
    while has_backlog || i < |data|
      invariant i <= |data| && Reachable(b, start_bit)
      invariant has_backlog ==> 0 < i && backlog == data[i - 1] && start_bit + b.GroupLength() >= 8
      invariant Emitted(b, data, ds, text, if has_backlog then i - 1 else i, start_bit)
      decreases |data| - i, has_backlog, 8 - start_bit
    {
      NextBit(b, start_bit);
      if !has_backlog {
        if start_bit + b.GroupLength() < 8 {
          text, ds := EncodeWithin(b, data, i, start_bit, text, ds);
          start_bit := start_bit + b.GroupLength();
        } else {
          backlog := data[i];
          i := i + 1;
          has_backlog := true;
        }
      } else {
        text, ds := EncodeAcross(b, data, i - 1, start_bit, backlog, text, ds);
        has_backlog := false;
        start_bit := (start_bit + b.GroupLength()) % 8;
      }
    }
  }

  lemma GroupsLength(b: Base, data: seq<nat>, ds: seq<nat>, s: nat)
    requires Written(data, ds, b.GroupLength(), |data|, s) && Reachable(b, s)
    ensures |ds| * b.GroupLength() == 8 * |data| + s && |ds| + PadsLeft(b, s) == EncodedLength(b, |data|)
  {
    StreamLength(ds, b.GroupLength());
    StreamLength(data, 8);
    LengthIsRounds(b, |data|, |ds|, s);
  }

  method Pad(b: Base, digits: string, s: nat, ghost ds: seq<nat>) returns (text: string)
    requires Reachable(b, s) && Spells(b, ds, digits)
    ensures Spells(b, ds, text) && |text| == |digits| + PadsLeft(b, s)
  {
    text := digits;
    var start_bit := s;
    while start_bit != 0
      invariant 0 <= start_bit && Reachable(b, start_bit) && Spells(b, ds, text)
      invariant |text| + PadsLeft(b, start_bit) == |digits| + PadsLeft(b, s)
      decreases PadsLeft(b, start_bit)
    {
      PadStep(b, start_bit);
      text := text + ['='];
      start_bit := (start_bit + b.GroupLength()) % 8;
    }
    PadStep(b, 0);
  }

  /** encode. */
  method Encode(b: Base, data: seq<nat>) returns (text: string)
    requires AllBytes(data)
    ensures EncodesTo(b, data, text)
  {
    var start_bit: nat;
    ghost var ds: seq<nat>;
    text, start_bit, ds := EncodeGroups(b, data);
    GroupsLength(b, data, ds, start_bit);
    text := Pad(b, text, start_bit, ds);
    SpelledDigits(b, ds, text);
  }
}
