/** The random handle token (`Generate64RandomChars`): up to 32 bytes from
    the kernel's random source, each written as two letters. */
module RandomToken {

  type byte = b: int | 0 <= b < 256

  /** One result of `getrandom`: some bytes, an interrupted call (`EINTR`),
      or any other failure. */
  datatype RandomOutcome = Chunk(bytes: seq<byte>) | Interrupted | Failed

  /** Bytes the generator asks for in all. */
  const TOKEN_BYTES: nat := 32

  /** `trace` is everything `getrandom` returned during one run of the
      generator loop that still wants `amount` bytes: a call never returns
      more bytes than asked for, an interrupted call is retried, any other
      failure ends the run, and the run ends as soon as no bytes are wanted. */
  predicate ValidTrace(trace: seq<RandomOutcome>, amount: nat)
    decreases |trace|
  {
    if amount == 0 then trace == []
    else
      |trace| > 0 &&
      match trace[0]
      case Interrupted => ValidTrace(trace[1..], amount)
      case Failed => |trace| == 1
      case Chunk(b) => |b| <= amount && ValidTrace(trace[1..], amount - |b|)
  }

  /** The random bytes a run obtains, in the order it obtains them. */
  function Obtained(trace: seq<RandomOutcome>): seq<byte>
  {
    if trace == [] then []
    else
      match trace[0]
      case Chunk(b) => b + Obtained(trace[1..])
      case Interrupted => Obtained(trace[1..])
      case Failed => []
  }

  /** The letter for a nibble: `'A' + n`. */
  function NibbleChar(n: int): char
    requires 0 <= n < 16
  {
    ('A' as int + n) as char
  }

  /** A byte becomes its low nibble's letter, then its high nibble's. */
  function EncodeByte(b: byte): string
  {
    [NibbleChar(b % 16), NibbleChar(b / 16)]
  }

  function Encode(bs: seq<byte>): string
  {
    if bs == [] then [] else EncodeByte(bs[0]) + Encode(bs[1..])
  }

  /** The token a run produces. */
  function Token(trace: seq<RandomOutcome>): string
  {
    Encode(Obtained(trace))
  }

  /** A letter of the token alphabet, `'A'..'P'`. */
  predicate IsTokenChar(c: char)
  {
    'A' <= c <= 'P'
  }

  /** Reads a pair of letters back into the byte they encode. */
  function Decode(cs: string): (bs: seq<byte>)
    requires |cs| % 2 == 0
    requires forall i :: 0 <= i < |cs| ==> IsTokenChar(cs[i])
    ensures |bs| * 2 == |cs|
  {
    if cs == [] then []
    else
      assert IsTokenChar(cs[0]) && IsTokenChar(cs[1]);
      var b: byte := (cs[0] as int - 'A' as int) + 16 * (cs[1] as int - 'A' as int);
      [b] + Decode(cs[2..])
  }

  lemma {:induction false} EncodeAppend(a: seq<byte>, b: seq<byte>)
    ensures Encode(a + b) == Encode(a) + Encode(b)
  {
    if a == [] {
      assert a + b == b;
    } else {
      assert (a + b)[0] == a[0];
      assert (a + b)[1..] == a[1..] + b;
      EncodeAppend(a[1..], b);
    }
  }

  /** Byte `k` is written as the two letters at `2k` and `2k + 1`: the low
      nibble's letter first, then the high nibble's. */
  lemma {:induction false} EncodeAt(bs: seq<byte>, k: nat)
    requires k < |bs|
    ensures |Encode(bs)| == 2 * |bs|
    ensures Encode(bs)[2 * k] == 'A' + (bs[k] % 16) as char
    ensures Encode(bs)[2 * k + 1] == 'A' + (bs[k] / 16) as char
  {
    EncodeLength(bs);
    if k > 0 {
      EncodeAt(bs[1..], k - 1);
    }
  }

  lemma {:induction false} EncodeLength(bs: seq<byte>)
    ensures |Encode(bs)| == 2 * |bs|
  {
    if bs != [] {
      EncodeLength(bs[1..]);
    }
  }

  /** Every letter of an encoding lies in `'A'..'P'`. */
  lemma {:induction false} EncodeAlphabet(bs: seq<byte>)
    ensures forall i :: 0 <= i < |Encode(bs)| ==> IsTokenChar(Encode(bs)[i])
  {
    if bs != [] {
      EncodeAlphabet(bs[1..]);
    }
  }

  /** Two consecutive letters decode back to the byte: `b = (c0 - 'A') + 16 * (c1 - 'A')`. */
  lemma {:induction false} DecodeEncode(bs: seq<byte>)
    ensures |Encode(bs)| % 2 == 0
    ensures forall i :: 0 <= i < |Encode(bs)| ==> IsTokenChar(Encode(bs)[i])
    ensures Decode(Encode(bs)) == bs
  {
    EncodeLength(bs);
    EncodeAlphabet(bs);
    if bs != [] {
      DecodeEncode(bs[1..]);
      assert Encode(bs)[2..] == Encode(bs[1..]);
    }
  }

  /** A run obtains at most the bytes it asks for, and exactly that many
      unless `getrandom` failed. */
  lemma {:induction false} ObtainedBound(trace: seq<RandomOutcome>, amount: nat)
    requires ValidTrace(trace, amount)
    ensures |Obtained(trace)| <= amount
    ensures |Obtained(trace)| == amount <==> forall i :: 0 <= i < |trace| ==> !trace[i].Failed?
    decreases |trace|
  {
    if amount > 0 {
      match trace[0]
      case Interrupted =>
        ObtainedBound(trace[1..], amount);
        assert forall i :: 1 <= i < |trace| ==> trace[i] == trace[1..][i - 1];
      case Failed =>
      case Chunk(b) =>
        ObtainedBound(trace[1..], amount - |b|);
        assert forall i :: 1 <= i < |trace| ==> trace[i] == trace[1..][i - 1];
    }
  }

  /** The token has two letters per byte obtained, at most 64 of them, and
      exactly 64 unless the random source failed. */
  lemma TokenLength(trace: seq<RandomOutcome>)
    requires ValidTrace(trace, TOKEN_BYTES)
    ensures |Token(trace)| == 2 * |Obtained(trace)| <= 2 * TOKEN_BYTES
    ensures |Token(trace)| == 2 * TOKEN_BYTES <==> forall i :: 0 <= i < |trace| ==> !trace[i].Failed?
  {
    ObtainedBound(trace, TOKEN_BYTES);
    EncodeLength(Obtained(trace));
  }

  /** An interrupted call adds nothing: the loop asks again for the same amount. */
  lemma InterruptedIsRetried(trace: seq<RandomOutcome>, amount: nat)
    requires amount > 0
    requires ValidTrace(trace, amount)
    ensures ValidTrace([Interrupted] + trace, amount)
    ensures Token([Interrupted] + trace) == Token(trace)
  {
    assert ([Interrupted] + trace)[1..] == trace;
  }

  /** The inner `for` loop of `Generate64RandomChars`: writes the letters
      of `buf` from `out[at]` on and returns the index after the last one. */
  method WriteEncoded(out: array<char>, at: nat, buf: seq<byte>) returns (end: nat)
    requires at + 2 * |buf| <= out.Length
    modifies out
    ensures end == at + 2 * |buf|
    ensures out[..] == old(out[..at]) + Encode(buf) + old(out[end..])
  {
    ghost var orig := out[..];
    end := at;
    var i := 0;
    while i != |buf|
      invariant 0 <= i <= |buf|
      invariant end == at + 2 * i
      invariant out[..] == orig[..at] + Encode(buf[..i]) + orig[end..]
    {
      ghost var s := out[..];
      out[end] := NibbleChar(buf[i] % 16);
      out[end + 1] := NibbleChar(buf[i] / 16);
      WriteTwo(s, orig, at, end, Encode(buf[..i]), EncodeByte(buf[i]));
      EncodeSnoc(buf, i);
      end := end + 2;
      i := i + 1;
    }
    assert buf[..i] == buf;
    assert old(out[..at]) == orig[..at] && old(out[end..]) == orig[end..];
  }

  lemma EncodeSnoc(buf: seq<byte>, i: nat)
    requires i < |buf|
    ensures Encode(buf[..i + 1]) == Encode(buf[..i]) + EncodeByte(buf[i])
  {
    assert buf[..i + 1] == buf[..i] + [buf[i]];
    EncodeAppend(buf[..i], [buf[i]]);
  }

  /** Overwriting the two places after `w` appends those two letters to `w`. */
  lemma WriteTwo(s: string, orig: string, at: nat, end: nat, w: string, pair: string)
    requires |pair| == 2 && end == at + |w| && end + 2 <= |orig|
    requires s == orig[..at] + w + orig[end..]
    ensures s[end := pair[0]][end + 1 := pair[1]] == orig[..at] + (w + pair) + orig[end + 2..]
  {
  }

  /** `Generate64RandomChars`: writes the token at `out[at..]` and returns
      the index after its last letter; nothing else in `out` changes. */
  method Generate64RandomChars(out: array<char>, at: nat, rand: seq<RandomOutcome>) returns (end: nat)
    requires ValidTrace(rand, TOKEN_BYTES)
    requires at + 2 * TOKEN_BYTES <= out.Length
    modifies out
    ensures end == at + |Token(rand)| <= at + 2 * TOKEN_BYTES
    ensures out[..] == old(out[..at]) + Token(rand) + old(out[end..])
  {
    ghost var orig := out[..];
    ghost var written: string := [];
    var amount: nat := TOKEN_BYTES;
    var calls := rand;
    var stop := false;
    end := at;
    assert out[..] == orig[..at] + written + orig[end..];
    while amount > 0 && !stop
      invariant (stop || ValidTrace(calls, amount)) && amount <= TOKEN_BYTES
      invariant end == at + |written| && |written| == 2 * (TOKEN_BYTES - amount)
      invariant out[..] == orig[..at] + written + orig[end..]
      invariant Token(rand) == written + (if stop then [] else Token(calls))
      decreases |calls|, if stop then 0 else 1
    {
      end, amount, calls, stop, written := RandomCall(out, end, amount, calls, orig, at, written);
    }
    if !stop {
      assert calls == [];
      assert Token(calls) == [];
    }
    assert Token(rand) == written;
    assert old(out[..at]) == orig[..at] && old(out[end..]) == orig[end..];
  }

  /** One turn of the loop in `Generate64RandomChars`: one call of
      `getrandom`, then the letters for the bytes it gave, written after the
      `written` letters that `out` already holds at `at`. `stop` is the
      `break` taken on a failure other than `EINTR`. */
  method RandomCall(out: array<char>, end: nat, amount: nat, calls: seq<RandomOutcome>,
                    ghost orig: string, ghost at: nat, ghost written: string)
    returns (end': nat, amount': nat, calls': seq<RandomOutcome>, stop: bool, ghost written': string)
    requires amount > 0 && ValidTrace(calls, amount)
    requires end == at + |written| && end + 2 * amount <= out.Length == |orig|
    requires out[..] == orig[..at] + written + orig[end..]
    modifies out
    ensures calls' == calls[1..] && amount' <= amount
    ensures stop <==> calls[0].Failed?
    ensures !stop ==> ValidTrace(calls', amount')
    ensures end' == end + 2 * (amount - amount') && end' == at + |written'|
    ensures out[..] == orig[..at] + written' + orig[end'..]
    ensures written + Token(calls) == written' + (if stop then [] else Token(calls'))
  {
    CallStep(calls, amount);
    var res := calls[0];
    calls' := calls[1..];
    end', amount', stop, written' := end, amount, false, written;
    if res.Interrupted? {
      return;
    }
    if res.Failed? {
      stop := true;
      return;
    }
    var buf := res.bytes;
    amount' := amount - |buf|;
    end' := WriteEncoded(out, end, buf);
    written' := written + Encode(buf);
    Splice(orig, at, written, Encode(buf));
  }

  /** Writing `piece` right after `w` in a buffer holding `w` at `at`. */
  lemma Splice(orig: string, at: nat, w: string, piece: string)
    requires at + |w| + |piece| <= |orig|
    ensures (orig[..at] + w + orig[at + |w|..])[..at + |w|] + piece + orig[at + |w| + |piece|..]
      == orig[..at] + (w + piece) + orig[at + |w| + |piece|..]
  {
    assert (orig[..at] + w + orig[at + |w|..])[..at + |w|] == orig[..at] + w;
  }

  /** What one call of `getrandom` contributes, in each of its three outcomes. */
  lemma CallStep(t: seq<RandomOutcome>, amount: nat)
    requires amount > 0 && ValidTrace(t, amount)
    ensures |t| > 0
    ensures t[0].Interrupted? ==> ValidTrace(t[1..], amount) && Token(t) == Token(t[1..])
    ensures t[0].Failed? ==> Token(t) == []
    ensures t[0].Chunk? ==>
      |t[0].bytes| <= amount && ValidTrace(t[1..], amount - |t[0].bytes|) &&
      Token(t) == Encode(t[0].bytes) + Token(t[1..])
  {
    if t[0].Chunk? {
      EncodeAppend(t[0].bytes, Obtained(t[1..]));
    }
  }
}
