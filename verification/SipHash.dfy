/** SipHash-2-4 over a message that arrives in pieces (lib/util/siphash.h, lib/util/siphash.cpp). Bytes and words
    are natural numbers. */
module SipHash {
  import opened Bits
  import opened Shifts

  // ----- SipHash-2-4 of a whole message

  datatype State = State(v0: nat, v1: nat, v2: nat, v3: nat)

  function Add64(x: nat, y: nat): (r: nat) {
    (x + y) % W
  }

  function Xor(a: nat, b: nat): (r: nat) {
    if a == 0 && b == 0 then 0
    else 2 * Xor(a / 2, b / 2) + if a % 2 != b % 2 then 1 else 0
  }

  function RotateLeft(x: nat, b: nat): (r: nat)
    requires b < 64
  {
    BitOr(Shl(x, b) % W, Shr(x, 64 - b))
  }

  function SipRound(s: State): (r: State) {
    var v0 := Add64(s.v0, s.v1);
    var v2 := Add64(s.v2, s.v3);
    var v1 := Xor(RotateLeft(s.v1, 13), v0);
    var v3 := Xor(RotateLeft(s.v3, 16), v2);
    var w0 := Add64(RotateLeft(v0, 32), v3);
    var w2 := Add64(v2, v1);
    State(w0, Xor(RotateLeft(v1, 17), w2), RotateLeft(w2, 32), Xor(RotateLeft(v3, 21), w0))
  }

  /** One word of the message. */
  function Block(s: State, m: nat): (r: State) {
    var t := SipRound(SipRound(s.(v3 := Xor(s.v3, m))));
    t.(v0 := Xor(t.v0, m))
  }

  /** Functions as values, which the proofs about messages do not look into. */
  const BLOCK: (State, nat) -> State := Block

  const FINISH: State -> nat := Finish

  predicate IsBytes(bytes: seq<nat>) {
    forall i :: 0 <= i < |bytes| ==> bytes[i] < 256
  }

  /** A byte at its place within a word. */
  function Placed(x: nat, i: nat): (r: nat) {
    Shl(x, 8 * i)
  }

  /** The word of some bytes, the first the least significant. */
  function LittleEndian(bytes: seq<nat>): (r: nat) {
    if bytes == [] then 0
    else BitOr(LittleEndian(bytes[..|bytes| - 1]), Placed(bytes[|bytes| - 1], |bytes| - 1))
  }

  /** A message cut into chunks of eight bytes, and the bytes after them. */
  datatype Parsed = Parsed(chunks: seq<seq<nat>>, tail: seq<nat>)

  function Feed(p: Parsed, x: nat): (r: Parsed) {
    if |p.tail| < 7 then Parsed(p.chunks, p.tail + [x]) else Parsed(p.chunks + [p.tail + [x]], [])
  }

  function Parse(msg: seq<nat>): (r: Parsed)
    ensures |r.tail| < 8
  {
    if msg == [] then Parsed([], []) else Feed(Parse(msg[..|msg| - 1]), msg[|msg| - 1])
  }

  /** The state after some chunks. */
  function Absorb(s: State, chunks: seq<seq<nat>>): (r: State) {
    if chunks == [] then s
    else BLOCK(Absorb(s, chunks[..|chunks| - 1]), LittleEndian(chunks[|chunks| - 1]))
  }

  /** The last chunk: the bytes left, null bytes and the length. */
  function LastChunk(tail: seq<nat>, length: nat): (r: seq<nat>)
    requires |tail| < 8
  {
    tail + NullBytes(7 - |tail|) + [length]
  }

  function NullBytes(n: nat): (r: seq<nat>)
    ensures |r| == n
  {
    seq(n, _ => 0)
  }

  function Init(key: seq<nat>): (r: State)
    requires |key| == 16
  {
    var k0, k1 := LittleEndian(key[..8]), LittleEndian(key[8..]);
    State(Xor(0x736f6d6570736575, k0), Xor(0x646f72616e646f6d, k1), Xor(0x6c7967656e657261, k0),
          Xor(0x7465646279746573, k1))
  }

  function Finish(s: State): (r: nat) {
    var t := SipRound(SipRound(SipRound(SipRound(s.(v2 := Xor(s.v2, 0xff))))));
    Xor(Xor(Xor(t.v0, t.v1), t.v2), t.v3)
  }

  /** The hash of a message from the state that Init gives for the key. */
  function Hash(start: State, msg: seq<nat>): (r: nat) {
    FINISH(Absorb(start, Parse(msg).chunks + [LastChunk(Parse(msg).tail, |msg| % 256)]))
  }

  // ----- words

  predicate IsWords(s: State) {
    s.v0 < W && s.v1 < W && s.v2 < W && s.v3 < W
  }

  lemma {:induction false} XorBound(x: nat, y: nat, k: nat)
    requires x < Pow2(k) && y < Pow2(k)
    ensures Xor(x, y) < Pow2(k)
  {
    if k > 0 {
      XorBound(x / 2, y / 2, k - 1);
    }
  }

  lemma {:induction false} ShrSmaller(v: nat, k: nat)
    ensures Shr(v, k) <= v
  {
    if k > 0 {
      ShrSmaller(v / 2, k - 1);
    }
  }

  lemma OperationsFit(x: nat, y: nat, b: nat)
    requires x < W && y < W && b < 64
    ensures Xor(x, y) < W && RotateLeft(x, b) < W && Add64(x, y) < W
  {
    Powers();
    XorBound(x, y, 64);
    ShrSmaller(x, 64 - b);
    OrBound(Shl(x, b) % W, Shr(x, 64 - b), 64);
  }

  /** A round keeps 64-bit words. */
  lemma RoundKeepsWords(s: State)
    requires IsWords(s)
    ensures IsWords(SipRound(s))
  {
    var v0, v2 := Add64(s.v0, s.v1), Add64(s.v2, s.v3);
    OperationsFit(s.v1, v0, 13);
    OperationsFit(RotateLeft(s.v1, 13), v0, 0);
    OperationsFit(s.v3, v2, 16);
    OperationsFit(RotateLeft(s.v3, 16), v2, 0);
    var v1, v3 := Xor(RotateLeft(s.v1, 13), v0), Xor(RotateLeft(s.v3, 16), v2);
    var w0, w2 := Add64(RotateLeft(v0, 32), v3), Add64(v2, v1);
    OperationsFit(v1, w2, 17);
    OperationsFit(RotateLeft(v1, 17), w2, 0);
    OperationsFit(w2, w2, 32);
    OperationsFit(v3, w0, 21);
    OperationsFit(RotateLeft(v3, 21), w0, 0);
  }

  lemma BlockKeepsWords(s: State, m: nat)
    requires IsWords(s) && m < W
    ensures IsWords(BLOCK(s, m))
  {
    assert BLOCK(s, m) == Block(s, m);
    var s1 := s.(v3 := Xor(s.v3, m));
    OperationsFit(s.v3, m, 0);
    RoundKeepsWords(s1);
    RoundKeepsWords(SipRound(s1));
    OperationsFit(SipRound(SipRound(s1)).v0, m, 0);
  }

  lemma FinishIsWord(s: State)
    requires IsWords(s)
    ensures FINISH(s) < W
  {
    assert FINISH(s) == Finish(s);
    var s0 := s.(v2 := Xor(s.v2, 0xff));
    OperationsFit(s.v2, 0xff, 0);
    RoundKeepsWords(s0);
    RoundKeepsWords(SipRound(s0));
    RoundKeepsWords(SipRound(SipRound(s0)));
    FourRounds(s0, SipRound(SipRound(SipRound(s0))));
  }

  lemma FourRounds(s: State, t: State)
    requires t == SipRound(SipRound(SipRound(s))) && IsWords(t)
    ensures var u := SipRound(t); Xor(Xor(Xor(u.v0, u.v1), u.v2), u.v3) < W
  {
    RoundKeepsWords(t);
    var u := SipRound(t);
    OperationsFit(u.v0, u.v1, 0);
    OperationsFit(Xor(u.v0, u.v1), u.v2, 0);
    OperationsFit(Xor(Xor(u.v0, u.v1), u.v2), u.v3, 0);
  }

  /** load_le_64. */
  function LoadLe64(p: seq<nat>): (r: nat)
    requires |p| == 8
  {
    BitOr(BitOr(BitOr(BitOr(BitOr(BitOr(BitOr(
      p[0], Placed(p[1], 1)), Placed(p[2], 2)), Placed(p[3], 3)),
      Placed(p[4], 4)), Placed(p[5], 5)), Placed(p[6], 6)), Placed(p[7], 7))
  }

  lemma {:induction false} LoadIsLittleEndian(p: seq<nat>)
    requires |p| == 8
    ensures LoadLe64(p) == LittleEndian(p)
  {
    OrZero(p[0]);
    assert p[..0] == [];
    LoadFour(p, 0, 0, p[0]);
    LoadFour(p, 4, LittleEndian(p[..4]), BitOr(LittleEndian(p[..4]), Placed(p[4], 4)));
    assert p[..8] == p;
  }

  /** Four bytes more. */
  lemma {:induction false} LoadFour(p: seq<nat>, i: nat, word: nat, first: nat)
    requires i + 4 <= |p| && word == LittleEndian(p[..i]) && first == BitOr(word, Placed(p[i], i))
    ensures LittleEndian(p[..i + 4]) ==
              BitOr(BitOr(BitOr(first, Placed(p[i + 1], i + 1)), Placed(p[i + 2], i + 2)), Placed(p[i + 3], i + 3))
  {
    Front(p, i + 1);
    Front(p, i + 2);
    Front(p, i + 3);
    Front(p, i + 4);
  }

  lemma Front(p: seq<nat>, i: nat)
    requires 0 < i <= |p|
    ensures LittleEndian(p[..i]) == BitOr(LittleEndian(p[..i - 1]), Placed(p[i - 1], i - 1))
  {
    assert p[..i][..i - 1] == p[..i - 1];
  }

  lemma PlaceByte(v: nat, x: nat, k: nat, w: nat)
    requires v < Pow2(k) && x < Pow2(w)
    ensures BitOr(v, Shl(x, k)) < Pow2(w + k)
  {
    OrShl(x, k, v);
    ShlBound(x, w, v, k);
  }

  /** The word of n bytes takes 8n bits. */
  lemma {:induction false} WordBound(bytes: seq<nat>)
    requires IsBytes(bytes)
    ensures LittleEndian(bytes) < Pow2(8 * |bytes|)
  {
    if bytes != [] {
      var n := |bytes| - 1;
      WordBound(bytes[..n]);
      ByteSize();
      PlaceByte(LittleEndian(bytes[..n]), bytes[n], 8 * n, 8);
    }
  }

  lemma EightBytesAreWord(bytes: seq<nat>)
    requires IsBytes(bytes) && |bytes| == 8
    ensures LittleEndian(bytes) < W
  {
    WordBound(bytes);
    Powers();
  }

  lemma InitIsWords(key: seq<nat>)
    requires |key| == 16 && IsBytes(key)
    ensures IsWords(Init(key))
  {
    EightBytesAreWord(key[..8]);
    EightBytesAreWord(key[8..]);
    var k0, k1 := LittleEndian(key[..8]), LittleEndian(key[8..]);
    OperationsFit(0x736f6d6570736575, k0, 0);
    OperationsFit(0x646f72616e646f6d, k1, 0);
    OperationsFit(0x6c7967656e657261, k0, 0);
    OperationsFit(0x7465646279746573, k1, 0);
  }

  lemma WordGrows(bytes: seq<nat>, x: nat)
    ensures LittleEndian(bytes + [x]) == BitOr(LittleEndian(bytes), Placed(x, |bytes|))
  {
    assert (bytes + [x])[..|bytes|] == bytes;
  }

  // ----- one byte at a time

  /** What the object holds. */
  datatype Sip = Sip(v: State, m: nat, m_idx: nat, input_len: nat)

  function FeedByte(h: Sip, x: nat): (r: Sip) {
    var m := BitOr(h.m, Placed(x, h.m_idx));
    var n := (h.input_len + 1) % 256;
    if h.m_idx + 1 < 8 then Sip(h.v, m, h.m_idx + 1, n) else Sip(BLOCK(h.v, m), 0, 0, n)
  }

  const FEED: (Sip, nat) -> Sip := FeedByte

  function FeedAll(h: Sip, data: seq<nat>): (r: Sip) {
    if data == [] then h else FEED(FeedAll(h, data[..|data| - 1]), data[|data| - 1])
  }

  /** The length is the most significant byte of the last word. */
  function WithLength(m: nat, length: nat): (r: nat) {
    BitOr(m, Placed(length, 7))
  }

  const LAST: (nat, nat) -> nat := WithLength

  function DigestOf(h: Sip): (r: nat) {
    FINISH(BLOCK(h.v, LAST(h.m, h.input_len)))
  }

  lemma FeedAppend(h: Sip, data: seq<nat>, x: nat)
    ensures FeedAll(h, data + [x]) == FEED(FeedAll(h, data), x)
  {
    assert (data + [x])[..|data|] == data;
  }

  /** However a message is cut in two, the pieces fed one after the other give the same. */
  lemma {:induction false} FeedPieces(h: Sip, a: seq<nat>, b: seq<nat>)
    ensures FeedAll(FeedAll(h, a), b) == FeedAll(h, a + b)
  {
    if b == [] {
      assert a + b == a;
    } else {
      var n := |b| - 1;
      FeedPieces(h, a, b[..n]);
      Snoc(a, b);
      FeedAppend(h, a + b[..n], b[n]);
    }
  }

  lemma Snoc(a: seq<nat>, b: seq<nat>)
    requires b != []
    ensures a + b[..|b| - 1] + [b[|b| - 1]] == a + b
  {
  }

  /** Eight bytes at the start of a word do what their word does. */
  lemma FeedWord(h: Sip, w: seq<nat>)
    requires h.m == 0 && h.m_idx == 0 && h.input_len < 256 && |w| == 8
    ensures FeedAll(h, w) == Sip(BLOCK(h.v, LoadLe64(w)), 0, 0, (h.input_len + 8) % 256)
  {
    Snoc([], w);
    LoadIsLittleEndian(w);
    WordGrows(w[..7], w[7]);
    FeedPart(h, w, 7);
    FeedAppend(h, w[..7], w[7]);
    FeedCases(FeedAll(h, w[..7]), w[7], h.input_len + 7, LittleEndian(w));
  }

  lemma FeedCases(h: Sip, x: nat, n: nat, word: nat)
    requires h.input_len == n % 256 && word == BitOr(h.m, Placed(x, h.m_idx))
    ensures FEED(h, x) ==
              if h.m_idx < 7 then Sip(h.v, word, h.m_idx + 1, (n + 1) % 256)
                else Sip(BLOCK(h.v, word), 0, 0, (n + 1) % 256)
  {
    assert FEED(h, x) == FeedByte(h, x);
    CountByte(n);
  }

  lemma CountByte(n: nat)
    ensures (n % 256 + 1) % 256 == (n + 1) % 256
  {
  }

  lemma {:induction false} FeedPart(h: Sip, w: seq<nat>, i: nat)
    requires h.m == 0 && h.m_idx == 0 && h.input_len < 256 && i <= 7 && i <= |w|
    ensures FeedAll(h, w[..i]) == Sip(h.v, LittleEndian(w[..i]), i, (h.input_len + i) % 256)
  {
    if i > 0 {
      assert w[..i - 1] + [w[i - 1]] == w[..i];
      FeedPart(h, w, i - 1);
      FeedPartStep(h, w[..i - 1], w[i - 1], i - 1);
    }
  }

  lemma {:induction false} FeedPartStep(h: Sip, bytes: seq<nat>, x: nat, i: nat)
    requires |bytes| == i < 7 && FeedAll(h, bytes) == Sip(h.v, LittleEndian(bytes), i, (h.input_len + i) % 256)
    ensures FeedAll(h, bytes + [x]) == Sip(h.v, LittleEndian(bytes + [x]), i + 1, (h.input_len + i + 1) % 256)
  {
    FeedAppend(h, bytes, x);
    WordGrows(bytes, x);
    FeedCases(FeedAll(h, bytes), x, h.input_len + i, LittleEndian(bytes + [x]));
  }

  // ----- the whole message

  /** What the object holds after a message. */
  function Fed(start: State, msg: seq<nat>): (r: Sip) {
    FeedAll(Sip(start, 0, 0, 0), msg)
  }

  lemma {:induction false} FedIsParsed(start: State, msg: seq<nat>)
    ensures Fed(start, msg) == Sip(Absorb(start, Parse(msg).chunks), LittleEndian(Parse(msg).tail), |Parse(msg).tail|,
                                   |msg| % 256)
  {
    if msg != [] {
      var n := |msg| - 1;
      FedIsParsed(start, msg[..n]);
      var p := Parse(msg[..n]);
      FeedParsed(start, p, msg[n], Fed(start, msg[..n]), n);
    }
  }

  lemma FeedParsed(start: State, p: Parsed, x: nat, h: Sip, n: nat)
    requires |p.tail| < 8 && h == Sip(Absorb(start, p.chunks), LittleEndian(p.tail), |p.tail|, n % 256)
    ensures FEED(h, x) ==
              Sip(Absorb(start, Feed(p, x).chunks), LittleEndian(Feed(p, x).tail), |Feed(p, x).tail|, (n + 1) % 256)
  {
    WordGrows(p.tail, x);
    FeedCases(h, x, n, LittleEndian(p.tail + [x]));
    if |p.tail| == 7 {
      AbsorbAppend(start, p.chunks, p.tail + [x]);
    }
  }

  lemma AbsorbAppend(s: State, chunks: seq<seq<nat>>, c: seq<nat>)
    ensures Absorb(s, chunks + [c]) == BLOCK(Absorb(s, chunks), LittleEndian(c))
  {
    assert (chunks + [c])[..|chunks|] == chunks;
  }

  /** The digest of what was fed is the hash of the message. */
  lemma DigestIsHash(start: State, msg: seq<nat>)
    ensures DigestOf(Fed(start, msg)) == Hash(start, msg)
  {
    FedIsParsed(start, msg);
    DigestOfParsed(start, Parse(msg), |msg| % 256, Fed(start, msg));
  }

  lemma DigestOfParsed(start: State, p: Parsed, length: nat, h: Sip)
    requires |p.tail| < 8 && h == Sip(Absorb(start, p.chunks), LittleEndian(p.tail), |p.tail|, length)
    ensures DigestOf(h) == FINISH(Absorb(start, p.chunks + [LastChunk(p.tail, length)]))
  {
    var last := LastChunk(p.tail, length);
    AbsorbAppend(start, p.chunks, last);
    assert LAST(h.m, length) == WithLength(h.m, length);
    LastWord(p.tail, length, 7, last);
  }

  lemma LastWord(tail: seq<nat>, length: nat, n: nat, last: seq<nat>)
    requires |tail| <= n && last == tail + NullBytes(n - |tail|) + [length]
    ensures LittleEndian(last) == BitOr(LittleEndian(tail), Placed(length, n))
  {
    var z := tail + NullBytes(n - |tail|);
    assert |z| == n && last == z + [length];
    NullBytesAddNothing(tail, n - |tail|);
    WordGrows(z, length);
  }

  lemma {:induction false} NullBytesAddNothing(bytes: seq<nat>, n: nat)
    ensures LittleEndian(bytes + NullBytes(n)) == LittleEndian(bytes)
  {
    if n == 0 {
      assert bytes + NullBytes(0) == bytes;
    } else {
      NullBytesAddNothing(bytes, n - 1);
      assert bytes + NullBytes(n) == bytes + NullBytes(n - 1) + [0];
      NullByteAddsNothing(bytes + NullBytes(n - 1));
    }
  }

  lemma {:induction false} NullByteAddsNothing(bytes: seq<nat>)
    ensures LittleEndian(bytes + [0]) == LittleEndian(bytes)
  {
    WordGrows(bytes, 0);
    ShlZero(8 * |bytes|);
    OrZero(LittleEndian(bytes));
  }

  lemma {:induction false} ShlZero(k: nat)
    ensures Shl(0, k) == 0
  {
    if k > 0 {
      ShlZero(k - 1);
    }
  }

  predicate AllEight(chunks: seq<seq<nat>>) {
    forall i :: 0 <= i < |chunks| ==> |chunks[i]| == 8
  }

  /** The chunks are the message in its order, eight bytes at a time. */
  lemma {:induction false} ParseKeepsBytes(msg: seq<nat>)
    ensures Joined(Parse(msg).chunks) + Parse(msg).tail == msg && AllEight(Parse(msg).chunks)
  {
    if msg != [] {
      var n := |msg| - 1;
      ParseKeepsBytes(msg[..n]);
      Snoc([], msg);
      FeedKeepsBytes(Parse(msg[..n]), msg[n], msg[..n]);
    }
  }

  lemma {:induction false} FeedKeepsBytes(p: Parsed, x: nat, msg: seq<nat>)
    requires |p.tail| < 8 && AllEight(p.chunks) && Joined(p.chunks) + p.tail == msg
    ensures Joined(Feed(p, x).chunks) + Feed(p, x).tail == msg + [x] && AllEight(Feed(p, x).chunks)
  {
    if |p.tail| < 7 {
      assert Joined(p.chunks) + (p.tail + [x]) == msg + [x];
    } else {
      JoinedAppend(p.chunks, p.tail + [x]);
      assert Joined(p.chunks) + (p.tail + [x]) + [] == msg + [x];
    }
  }

  function Joined(chunks: seq<seq<nat>>): (r: seq<nat>) {
    if chunks == [] then [] else Joined(chunks[..|chunks| - 1]) + chunks[|chunks| - 1]
  }

  lemma JoinedAppend(chunks: seq<seq<nat>>, c: seq<nat>)
    ensures Joined(chunks + [c]) == Joined(chunks) + c
  {
    assert (chunks + [c])[..|chunks|] == chunks;
  }

  // ----- the object

  /** The vector is four words, and only the bytes put in so far are not null. */
  ghost predicate Fits(h: Sip) {
    IsWords(h.v) && h.m_idx < 8 && h.m < Pow2(8 * h.m_idx) && h.input_len < 256
  }

  /** A byte put above i others. */
  lemma PutAbove(m: nat, x: nat, i: nat)
    requires m < Pow2(8 * i) && x < 256
    ensures BitOr(m, Placed(x, i)) < Pow2(8 * (i + 1))
    ensures i <= 7 ==> BitOr(m, Placed(x, i)) < W
  {
    ByteSize();
    PlaceByte(m, x, 8 * i, 8);
    if i <= 7 {
      Powers();
      Pow2Monotone(8 * (i + 1), 64);
    }
  }

  lemma FeedByteFits(h: Sip, x: nat)
    requires Fits(h) && x < 256
    ensures Fits(FEED(h, x)) && FEED(h, x) == FeedByte(h, x)
  {
    assert FEED(h, x) == FeedByte(h, x);
    PutAbove(h.m, x, h.m_idx);
    if h.m_idx == 7 {
      BlockKeepsWords(h.v, BitOr(h.m, Placed(x, h.m_idx)));
    }
  }

  /** The digest is a word. */
  lemma DigestFits(h: Sip)
    requires Fits(h)
    ensures DigestOf(h) < W
  {
    assert LAST(h.m, h.input_len) == WithLength(h.m, h.input_len);
    var n := 7;
    Pow2Monotone(8 * h.m_idx, 8 * n);
    PutAbove(h.m, h.input_len, n);
    BlockKeepsWords(h.v, LAST(h.m, h.input_len));
    FinishIsWord(BLOCK(h.v, LAST(h.m, h.input_len)));
  }

  lemma HighBytesNull(h: Sip, j: nat)
    requires Fits(h) && h.m_idx <= j
    ensures BitAnd(h.m, Placed(0xff, j)) == 0
  {
    Pow2Monotone(8 * h.m_idx, 8 * j);
    AndDisjoint(h.m, 0xff, 8 * j);
  }

  lemma WordFits(h: Sip, w: seq<nat>)
    requires Fits(h) && h.m_idx == 0 && |w| == 8 && IsBytes(w)
    ensures FeedAll(h, w) == Sip(BLOCK(h.v, LittleEndian(w)), 0, 0, (h.input_len + 8) % 256)
    ensures Fits(FeedAll(h, w))
  {
    FeedWord(h, w);
    LoadIsLittleEndian(w);
    EightBytesAreWord(w);
    BlockKeepsWords(h.v, LittleEndian(w));
  }

  method LoadWord(p: seq<nat>) returns (r: nat)
    requires |p| == 8
    ensures r == LittleEndian(p)
  {
    LoadIsLittleEndian(p);
    return LoadLe64(p);
  }

  lemma NextWord(h: Sip, data: seq<nat>, i: nat)
    requires i + 8 <= |data| && IsBytes(data)
    ensures IsBytes(data[i..i + 8]) && FeedAll(FeedAll(h, data[..i]), data[i..i + 8]) == FeedAll(h, data[..i + 8])
  {
    assert data[..i] + data[i..i + 8] == data[..i + 8];
    FeedPieces(h, data[..i], data[i..i + 8]);
  }

  lemma NextByte(h: Sip, data: seq<nat>, i: nat)
    requires i < |data|
    ensures FEED(FeedAll(h, data[..i]), data[i]) == FeedAll(h, data[..i + 1])
  {
    assert data[..i] + [data[i]] == data[..i + 1];
    FeedAppend(h, data[..i], data[i]);
  }

  /** Where the last whole word ends. */
  method EndOfWords(n: nat) returns (end8: nat, ghost words: nat)
    ensures end8 == 8 * words && end8 <= n < end8 + 8
  {
    end8, words := n - n % 8, n / 8;
  }

  class SipHash24 {
    var m_idx: nat
    var v0: nat
    var v1: nat
    var v2: nat
    var v3: nat
    var m: nat
    var input_len: nat

    function Vector(): (r: State)
      reads this
    {
      State(v0, v1, v2, v3)
    }

    function Value(): (r: Sip)
      reads this
    {
      Sip(Vector(), m, m_idx, input_len)
    }

    constructor (key: seq<nat>)
      requires |key| == 16 && IsBytes(key)
      ensures Fits(Value()) && Value() == Fed(Init(key), [])
    {
      InitIsWords(key);
      var k0 := LoadLe64(key[..8]);
      var k1 := LoadLe64(key[8..]);
      LoadIsLittleEndian(key[..8]);
      LoadIsLittleEndian(key[8..]);
      v0 := Xor(0x736f6d6570736575, k0);
      v1 := Xor(0x646f72616e646f6d, k1);
      v2 := Xor(0x6c7967656e657261, k0);
      v3 := Xor(0x7465646279746573, k1);
      m_idx, input_len, m := 0, 0, 0;
    }

    method Compress()
      modifies this`v0, this`v1, this`v2, this`v3
      ensures Vector() == SipRound(old(Vector()))
    {
      v0 := Add64(v0, v1);
      v1 := RotateLeft(v1, 13);
      v1 := Xor(v1, v0);
      v0 := RotateLeft(v0, 32);
      v2 := Add64(v2, v3);
      v3 := RotateLeft(v3, 16);
      v3 := Xor(v3, v2);
      v0 := Add64(v0, v3);
      v3 := RotateLeft(v3, 21);
      v3 := Xor(v3, v0);
      v2 := Add64(v2, v1);
      v1 := RotateLeft(v1, 17);
      v1 := Xor(v1, v2);
      v2 := RotateLeft(v2, 32);
    }

    method DigestBlock()
      modifies this`v0, this`v1, this`v2, this`v3, this`m, this`m_idx
      ensures Vector() == BLOCK(old(Vector()), old(m)) && m == 0 && m_idx == 0
    {
      assert BLOCK(Vector(), m) == Block(Vector(), m);
      v3 := Xor(v3, m);
      Compress();
      Compress();
      v0 := Xor(v0, m);
      m_idx := 0;
      m := 0;
    }

    method PutWord(w: seq<nat>)
      requires Fits(Value()) && m_idx == 0 && |w| == 8 && IsBytes(w)
      modifies this
      ensures Fits(Value()) && m_idx == 0 && Value() == FeedAll(old(Value()), w)
    {
      WordFits(Value(), w);
      var word := LoadWord(w);
      AbsorbWord(word);
    }

    method AbsorbWord(word: nat)
      modifies this
      ensures Value() == Sip(BLOCK(old(Vector()), word), 0, 0, (old(input_len) + 8) % 256)
    {
      input_len := (input_len + 8) % 256;
      m := word;
      DigestBlock();
    }

    method PutByte(x: nat)
      requires Fits(Value()) && x < 256
      modifies this
      ensures Fits(Value()) && Value() == FEED(old(Value()), x)
    {
      FeedByteFits(Value(), x);
      input_len := (input_len + 1) % 256;
      m := BitOr(m, Placed(x, m_idx));
      m_idx := m_idx + 1;
      if m_idx >= 8 {
        DigestBlock();
      }
    }

    /** update. */
    method Update(data: seq<nat>)
      requires Fits(Value()) && IsBytes(data)
      modifies this
      ensures Fits(Value()) && Value() == FeedAll(old(Value()), data)
    {
      var i := 0;
      if m_idx == 0 {
        i := UpdateWords(data);
      }
      UpdateBytes(data, i, old(Value()));
    }

    method PutNextWord(data: seq<nat>, i: nat, ghost h: Sip)
      requires Fits(Value()) && m_idx == 0 && IsBytes(data) && i + 8 <= |data| && Value() == FeedAll(h, data[..i])
      modifies this
      ensures Fits(Value()) && m_idx == 0 && Value() == FeedAll(h, data[..i + 8])
    {
      NextWord(h, data, i);
      PutWord(data[i..i + 8]);
    }

    method UpdateWords(data: seq<nat>) returns (end8: nat)
      requires Fits(Value()) && m_idx == 0 && IsBytes(data)
      modifies this
      ensures end8 <= |data| && Fits(Value()) && m_idx == 0 && Value() == FeedAll(old(Value()), data[..end8])
    {
      ghost var h := Value();
      ghost var words;
      end8, words := EndOfWords(|data|);
      ghost var k := 0;
      var i := 0;
      while i != end8
        invariant i == 8 * k && k <= words
        invariant Fits(Value()) && m_idx == 0 && Value() == FeedAll(h, data[..i])
        decreases end8 - i
      {
        assert k + 1 <= words;
        assert i + 8 <= end8;
        PutNextWord(data, i, h);
        i, k := i + 8, k + 1;
      }
    }

    method PutNextByte(data: seq<nat>, i: nat, ghost h: Sip)
      requires Fits(Value()) && IsBytes(data) && i < |data| && Value() == FeedAll(h, data[..i])
      modifies this
      ensures Fits(Value()) && Value() == FeedAll(h, data[..i + 1])
    {
      NextByte(h, data, i);
      PutByte(data[i]);
    }

    method UpdateBytes(data: seq<nat>, start: nat, ghost h: Sip)
      requires Fits(Value()) && IsBytes(data) && start <= |data| && Value() == FeedAll(h, data[..start])
      modifies this
      ensures Fits(Value()) && Value() == FeedAll(h, data)
    {
      var i := start;
      while i != |data|
        invariant 0 <= i <= |data| && Fits(Value()) && Value() == FeedAll(h, data[..i])
        decreases |data| - i
      {
        PutNextByte(data, i, h);
        i := i + 1;
      }
      assert data[..i] == data;
    }

    /** digest; the bytes above those that were put in are null, as it asserts. */
    method Digest() returns (r: nat)
      requires Fits(Value())
      modifies this
      ensures r == DigestOf(old(Value())) && r < W
    {
      DigestFits(Value());
      r := PadAndFinish();
    }

    method PadAndFinish() returns (r: nat)
      requires Fits(Value())
      modifies this
      ensures r == DigestOf(old(Value()))
    {
      CheckNull();
      PutLength();
      DigestBlock();
      r := Finalize();
    }

    method PutLength()
      requires m_idx == 7
      modifies this`m
      ensures m == LAST(old(m), input_len)
    {
      assert LAST(m, input_len) == WithLength(m, input_len);
      m := BitOr(m, Placed(input_len, m_idx));
    }

    /** The bytes above those that were put in are null. */
    method CheckNull()
      requires Fits(Value())
      modifies this`m_idx
      ensures m_idx == 7
    {
      ghost var h := Value();
      var place := m_idx;
      while m_idx < 7
        invariant h.m_idx <= place == m_idx <= 7
      {
        HighBytesNull(h, place);
        assert BitAnd(m, Placed(0xff, place)) == 0;
        place := place + 1;
        m_idx := m_idx + 1;
      }
      HighBytesNull(h, place);
      assert BitAnd(m, Placed(0xff, place)) == 0;
    }

    method Finalize() returns (r: nat)
      modifies this`v0, this`v1, this`v2, this`v3
      ensures r == FINISH(old(Vector()))
    {
      assert FINISH(Vector()) == Finish(Vector());
      v2 := Xor(v2, 0xff);
      Compress();
      Compress();
      Compress();
      Compress();
      return Xor(Xor(Xor(v0, v1), v2), v3);
    }
  }
  /** A message that arrives in any number of pieces has the hash of the whole message. */
  method HashPieces(key: seq<nat>, pieces: seq<seq<nat>>) returns (r: nat)
    requires |key| == 16 && IsBytes(key) && forall i :: 0 <= i < |pieces| ==> IsBytes(pieces[i])
    ensures r == Hash(Init(key), Joined(pieces)) && r < W
  {
    var hasher := new SipHash24(key);
    for i := 0 to |pieces|
      invariant Fits(hasher.Value()) && hasher.Value() == Fed(Init(key), Joined(pieces[..i]))
    {
      FedPiece(Init(key), pieces, i);
      hasher.Update(pieces[i]);
    }
    assert pieces[..|pieces|] == pieces;
    DigestIsHash(Init(key), Joined(pieces));
    r := hasher.Digest();
  }

  lemma FedPiece(start: State, pieces: seq<seq<nat>>, i: nat)
    requires i < |pieces|
    ensures FeedAll(Fed(start, Joined(pieces[..i])), pieces[i]) == Fed(start, Joined(pieces[..i + 1]))
  {
    assert pieces[..i] + [pieces[i]] == pieces[..i + 1];
    JoinedAppend(pieces[..i], pieces[i]);
    FeedPieces(Sip(start, 0, 0, 0), Joined(pieces[..i]), pieces[i]);
  }
}
