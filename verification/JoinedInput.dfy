/** Decoding from two byte slices joined end to end, as indexed extrinsics are read: the first
    part comes from the block's index, the second from the transaction column. */
module JoinedInput {
  import opened Types

  // ---- the input as an object ----

  /** Reads the first `n` bytes of a slice; fails and consumes nothing when it is shorter. */
  function SliceRead(s: seq<byte>, n: nat): Option<(seq<byte>, seq<byte>)> {
    if n <= |s| then Some((s[..n], s[n..])) else None
  }

  class JoinInput {
    var first: seq<byte>
    var second: seq<byte>

    constructor (i1: seq<byte>, i2: seq<byte>)
      ensures first == i1 && second == i2
    {
      first := i1;
      second := i2;
    }

    /** What is still to be read. */
    function Rest(): seq<byte>
      reads this
    {
      first + second
    }

    method RemainingLen() returns (n: nat)
      ensures n == |Rest()|
    {
      n := |first| + |second|;
    }

    /** Reads from the first slice as far as it goes and the remainder from the second. A read
        that succeeds gives what one slice holding both would give; a read that fails is one
        that is too long for that slice too. */
    method Read(len: nat) returns (into: Option<seq<byte>>)
      modifies this
      ensures into.Some? <==> len <= |old(Rest())|
      ensures into.Some? ==> |into.value| == len && into.value + Rest() == old(Rest())
    {
      var read := 0;
      var buffer: seq<byte> := [];
      if |first| > 0 {
        read := if |first| <= len then |first| else len;
        buffer := first[..read];
        first := first[read..];
      }
      if read < len {
        if len - read > |second| {
          return None;
        }
        buffer := buffer + second[..len - read];
        second := second[len - read..];
      }
      assert buffer + Rest() == old(Rest());
      return Some(buffer);
    }
  }

  // ---- decoders ----

  /** What a decoder does next, given the answers it got so far. */
  datatype Action<X> = Done(value: X) | Fail | Ask(len: nat) | AskRemaining

  datatype Answer = Bytes(bytes: seq<byte>) | Remaining(len: nat)

  type Decoder<!X> = seq<Answer> -> Action<X>

  datatype Outcome<X> = Decoded(value: X) | Failed | Unfinished

  /** Runs a decoder on one slice for at most `steps` requests. */
  function RunPlain<X>(d: Decoder<X>, s: seq<byte>, answers: seq<Answer>, steps: nat): Outcome<X>
    decreases steps
  {
    match d(answers)
    case Done(x) => Decoded(x)
    case Fail => Failed
    case Ask(len) =>
      if steps == 0 then Unfinished
      else
        (match SliceRead(s, len)
         case None => Failed
         case Some((bytes, rest)) => RunPlain(d, rest, answers + [Bytes(bytes)], steps - 1))
    case AskRemaining =>
      if steps == 0 then Unfinished
      else RunPlain(d, s, answers + [Remaining(|s|)], steps - 1)
  }

  /** Runs a decoder on a joined input, request by request. */
  method RunJoined<X>(d: Decoder<X>, input: JoinInput, steps: nat) returns (r: Outcome<X>)
    modifies input
    ensures r == RunPlain(d, old(input.Rest()), [], steps)
  {
    var answers: seq<Answer> := [];
    var left := steps;
    while true
      invariant RunPlain(d, input.Rest(), answers, left) == RunPlain(d, old(input.Rest()), [], steps)
      decreases left
    {
      match d(answers)
      case Done(x) => return Decoded(x);
      case Fail => return Failed;
      case Ask(len) =>
        if left == 0 { return Unfinished; }
        ghost var all := input.Rest();
        var bytes := input.Read(len);
        if bytes.None? { return Failed; }
        assert SliceRead(all, len) == Some((bytes.value, input.Rest())) by {
          assert all[..len] == bytes.value && all[len..] == input.Rest();
        }
        answers := answers + [Bytes(bytes.value)];
        left := left - 1;
      case AskRemaining =>
        if left == 0 { return Unfinished; }
        var n := input.RemainingLen();
        answers := answers + [Remaining(n)];
        left := left - 1;
    }
  }
}
