/** What the checksum promises its users: which damaged messages it rejects, and what the
    checksum-gated state buffer can therefore hold. */
module CrcDetection {
  import opened Gf2
  import opened Crc
  import opened Wrappers

  /** The generator x^32 + 0x04C11DB7. */
  function Generator(): Bits {
    [true] + POLYNOMIAL
  }

  lemma {:induction false} ConstantTerm()
    ensures POLYNOMIAL[31]
  {
    assert Digits(0x04c11db7, 32) == Digits(0x04c11db7 / 2, 31) + [0x04c11db7 % 2 == 1];
  }

  // ---- The checksum as an algebraic function ----

  /** The checksum is the remainder of 0xFFFFFFFF * x^(32 len) + M(x) * x^32 modulo the
      generator, and no other word is. */
  lemma Crc32IsRemainder(words: seq<Word>, crc: Word)
    ensures IsRemainder(Dividend(ALL_ONES, MessageBits(words)), Generator(), crc) <==>
            crc == Crc32(words)
  {
    RunIsRemainder(POLYNOMIAL, ALL_ONES, MessageBits(words), crc);
  }

  function XorWords(a: seq<Word>, b: seq<Word>): (c: seq<Word>)
    requires |a| == |b|
    ensures |c| == |a|
  {
    seq(|a|, i requires 0 <= i < |a| => Xor(a[i], b[i]))
  }

  lemma {:induction false} MessageXor(a: seq<Word>, b: seq<Word>)
    requires |a| == |b|
    ensures MessageBits(XorWords(a, b)) == Xor(MessageBits(a), MessageBits(b))
  {
    if a != [] {
      var k := |a| - 1;
      MessageXor(a[..k], b[..k]);
      assert XorWords(a, b)[..k] == XorWords(a[..k], b[..k]);
      XorAppend(MessageBits(a[..k]), a[k], MessageBits(b[..k]), b[k]);
    }
  }

  lemma XorAppend(a: Bits, c: Bits, b: Bits, d: Bits)
    requires |a| == |b| && |c| == |d|
    ensures Xor(a + c, b + d) == Xor(a, b) + Xor(c, d)
  {
  }

  /** The checksum is affine: over equal lengths it commutes with the sum of three messages. */
  lemma Crc32Affine(a: seq<Word>, b: seq<Word>, c: seq<Word>)
    requires |a| == |b| == |c|
    ensures Crc32(XorWords(XorWords(a, b), c)) == Xor(Xor(Crc32(a), Crc32(b)), Crc32(c))
  {
    MessageXor(a, b);
    MessageXor(XorWords(a, b), c);
    var one := ALL_ONES;
    RunXor(POLYNOMIAL, one, MessageBits(a), one, MessageBits(b));
    var two := Xor(one, one);
    RunXor(POLYNOMIAL, two, MessageBits(XorWords(a, b)), one, MessageBits(c));
    assert Xor(two, one) == one;
  }

  /** For a fixed data word the register update is a permutation of the register states. */
  lemma WordUpdateIsPermutation(word: Word, r: Word, s: Word)
    ensures Feed(r, word) == Feed(s, word) <==> r == s
    ensures exists p: Word :: Feed(p, word) == s
  {
    ConstantTerm();
    RunUnrun(POLYNOMIAL, r, word);
    RunUnrun(POLYNOMIAL, s, word);
    assert Feed(Unrun(POLYNOMIAL, s, word), word) == s;
  }

  /** Feeding a word empties the register exactly when it equals the register. */
  lemma FeedEmpties(crc: Word, word: Word)
    ensures Feed(crc, word) == Zeros(32) <==> word == crc
  {
    ConstantTerm();
    RunToZero(POLYNOMIAL, crc, word);
    assert word + Zeros(0) == word;
  }

  // ---- Messages that carry their checksum in the last word ----

  predicate Accepts(message: seq<Word>)
    requires |message| > 0
  {
    var n := |message| - 1;
    message[n] == Crc32(message[..n])
  }

  lemma AcceptsIffEmptied(message: seq<Word>)
    requires |message| > 0
    ensures Accepts(message) <==> Feed(ALL_ONES, MessageBits(message)) == Zeros(32)
  {
    var n := |message| - 1;
    Crc32Snoc(message, n);
    assert message[..n + 1] == message;
    FeedEmpties(Crc32(message[..n]), message[n]);
  }

  lemma {:induction false} SameMessage(a: seq<Word>, b: seq<Word>)
    requires |a| == |b|
    ensures Xor(MessageBits(a), MessageBits(b)) == Zeros(32 * |a|) <==> a == b
  {
    if a != [] {
      var k := |a| - 1;
      SameMessage(a[..k], b[..k]);
      XorAppend(MessageBits(a[..k]), a[k], MessageBits(b[..k]), b[k]);
      ZeroSplit(Xor(MessageBits(a[..k]), MessageBits(b[..k])), Xor(a[k], b[k]));
      XorIsZero(a[k], b[k]);
      assert a == a[..k] + [a[k]] && b == b[..k] + [b[k]];
    }
  }

  lemma ZeroSplit(a: Bits, b: Bits)
    ensures a + b == Zeros(|a| + |b|) <==> a == Zeros(|a|) && b == Zeros(|b|)
  {
    if a + b == Zeros(|a| + |b|) {
      assert a == (a + b)[..|a|] && b == (a + b)[|a|..];
    }
  }

  lemma XorBack(a: Bits, b: Bits)
    requires |a| == |b|
    ensures Xor(a, Xor(a, b)) == b
  {
  }

  /** A damaged copy of an accepted message is itself accepted exactly when the damage, as a
      polynomial, is a multiple of the generator. */
  lemma UndetectedErrors(sent: seq<Word>, received: seq<Word>)
    requires |sent| == |received| > 0 && Accepts(sent)
    ensures Accepts(received) <==>
            IsMultiple(Xor(MessageBits(sent), MessageBits(received)), Generator())
  {
    var v, e := MessageBits(sent), Xor(MessageBits(sent), MessageBits(received));
    AcceptsIffEmptied(sent);
    AcceptsIffEmptied(received);
    ConstantTerm();
    UndetectedIffMultiple(POLYNOMIAL, ALL_ONES, v, e);
    XorBack(v, MessageBits(received));
  }

  ghost predicate AgreeOutside(a: Bits, b: Bits, start: nat, len: nat) {
    |a| == |b| && forall i :: 0 <= i < |a| && !(start <= i < start + len) ==> a[i] == b[i]
  }

  /** Damage confined to a window of at most 33 consecutive bits, anywhere in the message and
      also across the boundary between payload and checksum, goes unnoticed only if it is no
      damage at all or the 33-bit generator itself. */
  lemma BurstErrors(sent: seq<Word>, received: seq<Word>, start: nat, len: nat)
    requires |sent| == |received| > 0 && Accepts(sent)
    requires len <= 33 && start + len <= 32 * |sent|
    requires forall i :: 0 <= i < 32 * |sent| && (i < start || start + len <= i) ==>
      MessageBits(sent)[i] == MessageBits(received)[i]
    ensures Accepts(received) <==>
            received == sent ||
            Xor(MessageBits(sent), MessageBits(received))[start..start + len] == Generator()
  {
    AcceptsIffEmptied(sent);
    AcceptsIffEmptied(received);
    SameMessage(sent, received);
    BurstInBits(MessageBits(sent), MessageBits(received), start, len);
  }

  lemma BurstInBits(v: Bits, u: Bits, start: nat, len: nat)
    requires len <= 33 && start + len <= |v| && AgreeOutside(v, u, start, len)
    requires Feed(ALL_ONES, v) == Zeros(32)
    ensures Feed(ALL_ONES, u) == Zeros(32) <==>
            Xor(v, u) == Zeros(|v|) || Xor(v, u)[start..start + len] == Generator()
  {
    var burst, after := Xor(v, u)[start..start + len], |v| - start - len;
    ErrorInWindow(v, u, start, len);
    ConstantTerm();
    BurstDetected(POLYNOMIAL, ALL_ONES, v, start, burst, after);
    XorBack(v, u);
  }

  /** The error is zero outside the window, so it is zero exactly if the window is. */
  lemma ErrorInWindow(v: Bits, u: Bits, start: nat, len: nat)
    requires AgreeOutside(v, u, start, len) && start + len <= |v|
    ensures var e, burst := Xor(v, u), Xor(v, u)[start..start + len];
            && e == Zeros(start) + burst + Zeros(|v| - start - len)
            && (e == Zeros(|v|) <==> burst == Zeros(len))
  {
    var e, burst, after := Xor(v, u), Xor(v, u)[start..start + len], |v| - start - len;
    assert e == Zeros(start) + burst + Zeros(after);
    ZeroSplit(Zeros(start) + burst, Zeros(after));
    ZeroSplit(Zeros(start), burst);
  }

  lemma ShortBurstsRejected(sent: seq<Word>, received: seq<Word>, start: nat, len: nat)
    requires |sent| == |received| > 0 && Accepts(sent)
    requires len <= 32 && start + len <= 32 * |sent|
    requires forall i :: 0 <= i < 32 * |sent| && (i < start || start + len <= i) ==>
      MessageBits(sent)[i] == MessageBits(received)[i]
    requires received != sent
    ensures !Accepts(received)
  {
    BurstErrors(sent, received, start, len);
  }

  // ---- The checksum-gated state buffer ----

  /** The effect of one message: it replaces the contents if its checksum is right. */
  function Deliver(contents: Option<seq<Word>>, message: seq<Word>): Option<seq<Word>>
    requires |message| > 0
  {
    if Accepts(message) then Some(message) else contents
  }

  /** What an empty buffer holds after the messages. */
  function Delivered(messages: seq<seq<Word>>): Option<seq<Word>>
    requires forall m :: m in messages ==> |m| > 0
  {
    if messages == [] then None
    else
      var k := |messages| - 1;
      Deliver(Delivered(messages[..k]), messages[k])
  }

  class StateBuffer {
    var state: seq<Word>
    var ready: bool

    ghost function Contents(): Option<seq<Word>>
      reads this
    {
      if ready then Some(state) else None
    }

    constructor ()
      ensures Contents() == None
    {
      state, ready := [], false;
    }

    method Set(message: seq<Word>)
      modifies this
      ensures Contents() == Some(message)
    {
      state, ready := message, true;
    }

    method Get() returns (r: Option<seq<Word>>)
      ensures r == Contents()
    {
      if !ready {
        return None;
      }
      return Some(state);
    }

    /** The subscriber callback: check the last word against the checksum of the others. */
    method OnMessage(message: array<Word>)
      requires message.Length > 0
      modifies this
      ensures Contents() == Deliver(old(Contents()), message[..])
    {
      var n := message.Length - 1;
      var crc := Crc32Conditional(message, n);
      assert message[..][..n] == message[..n];
      if message[n] == crc {
        Set(message[..]);
      }
    }
  }

  /** The last sent message that arrived undamaged. */
  function LastIntact(sent: seq<seq<Word>>, received: seq<seq<Word>>): Option<seq<Word>>
    requires |sent| == |received|
  {
    if sent == [] then None
    else
      var k := |sent| - 1;
      if received[k] == sent[k] then Some(sent[k]) else LastIntact(sent[..k], received[..k])
  }

  /** If every message on the wire is an accepted one, possibly damaged within a window of 32
      bits, then the buffer holds the last undamaged one: damaged copies change nothing. */
  lemma {:induction false} BufferHoldsLastIntact(sent: seq<seq<Word>>, received: seq<seq<Word>>,
      start: seq<nat>)
    requires |sent| == |received| == |start|
    requires forall m :: m in received ==> |m| > 0
    requires forall i :: 0 <= i < |sent| ==>
      |sent[i]| == |received[i]| && Accepts(sent[i]) && start[i] + 32 <= 32 * |sent[i]| &&
      AgreeOutside(MessageBits(sent[i]), MessageBits(received[i]), start[i], 32)
    ensures Delivered(received) == LastIntact(sent, received)
  {
    if sent != [] {
      var k := |sent| - 1;
      DamageIsDropped(Delivered(received[..k]), sent[k], received[k], start[k]);
      BufferHoldsLastIntact(sent[..k], received[..k], start[..k]);
    }
  }

  lemma DamageIsDropped(contents: Option<seq<Word>>, sent: seq<Word>, received: seq<Word>, start: nat)
    requires |sent| == |received| > 0 && Accepts(sent) && start + 32 <= 32 * |sent|
    requires AgreeOutside(MessageBits(sent), MessageBits(received), start, 32)
    ensures Deliver(contents, received) == if received == sent then Some(sent) else contents
  {
    if received != sent {
      ShortBurstsRejected(sent, received, start, 32);
    }
  }
}
