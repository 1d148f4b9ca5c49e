/**
 * The serial line as the two serial handlers use it: `readn` collects up to `n`
 * bytes through repeated poll-and-read steps, and `writen` pushes a whole buffer
 * through repeated writes.
 *
 * The operating system is an oracle: a sequence of read outcomes and a sequence of
 * write outcomes, consumed in order. Bytes waiting on the line are one outcome; a
 * read takes as many of them as it asks for and leaves the rest waiting. When the
 * read outcomes run out, every poll times out; when the write outcomes run out,
 * every write takes all it is given.
 */
module SerialLink {
  import opened Wire

  /** What one poll followed by one read yields. */
  datatype ReadEvent =
    | PollTimeout           // poll reports nothing readable within the timeout, or fails
    | EndOfFile             // read returns 0
    | ReadInterrupted       // read fails with EINTR
    | ReadFailed            // read fails with any other error
    | Waiting(data: seq<byte>) // bytes waiting on the line (none means read returns 0)

  /** What one write yields. */
  datatype WriteEvent =
    | Takes(count: nat)     // the line takes up to `count` bytes (0 means write returns 0)
    | WriteInterrupted      // write fails with EINTR
    | WriteFailed           // write fails with any other error

  /** The value `readn` returns, the bytes it stored, and the outcomes left. */
  datatype ReadResult = ReadResult(count: int, data: seq<byte>, rest: seq<ReadEvent>)

  /** The value `writen` returns, the bytes the line took, and the outcomes left. */
  datatype WriteResult = WriteResult(count: int, taken: seq<byte>, rest: seq<WriteEvent>)

  /** `readn(buffer, n)` against the outcomes `evs`. */
  function ReadSpec(evs: seq<ReadEvent>, n: nat): (r: ReadResult)
    decreases |evs|
  {
    if n == 0 then ReadResult(0, [], evs)
    else if evs == [] then ReadResult(0, [], [])
    else match evs[0]
      case PollTimeout => ReadResult(0, [], evs[1..])
      case EndOfFile => ReadResult(0, [], evs[1..])
      case ReadInterrupted => ReadSpec(evs[1..], n)
      case ReadFailed => ReadResult(-1, [], evs[1..])
      case Waiting(b) =>
        if b == [] then ReadResult(0, [], evs[1..])
        else if n < |b| then ReadResult(n, b[..n], [Waiting(b[n..])] + evs[1..])
        else if n == |b| then ReadResult(n, b, evs[1..])
        else Continued(|b|, b, ReadSpec(evs[1..], n - |b|))
  }

  /** The result of a read that had already stored `data` (`got` bytes) before `r`. */
  function Continued(got: nat, data: seq<byte>, r: ReadResult): ReadResult
  {
    if r.count < 0 then r else ReadResult(got + r.count, data + r.data, r.rest)
  }

  /**
   * `readn` returns -1 having stored nothing it reports, or a count of at most `n`
   * together with exactly that many bytes; it never uses up outcomes it was not given.
   */
  lemma {:induction false} ReadSpecBounds(evs: seq<ReadEvent>, n: nat)
    ensures var r := ReadSpec(evs, n);
      (r.count == -1 && r.data == []) || (0 <= r.count <= n && |r.data| == r.count)
    ensures |ReadSpec(evs, n).rest| <= |evs|
    decreases |evs|
  {
    if n > 0 && evs != [] && (evs[0].ReadInterrupted? || (evs[0].Waiting? && 0 < |evs[0].data| < n)) {
      ReadSpecBounds(evs[1..], if evs[0].Waiting? then n - |evs[0].data| else n);
    }
  }

  /**
   * Unless it fails, `readn` stores exactly the next bytes of the line, and those it
   * leaves waiting are the rest: no byte is lost or read twice.
   */
  lemma {:induction false} ReadSpecConsumes(evs: seq<ReadEvent>, n: nat)
    ensures var r := ReadSpec(evs, n);
      r.count >= 0 ==> Stream(evs) == r.data + Stream(r.rest)
    decreases |evs|
  {
    if n > 0 && evs != [] {
      var more := evs[1..];
      assert Stream(evs) == (if evs[0].Waiting? then evs[0].data else []) + Stream(more);
      if evs[0].ReadInterrupted? {
        ReadSpecConsumes(more, n);
      } else if evs[0].Waiting? && evs[0].data != [] {
        var b := evs[0].data;
        if n < |b| {
          assert Stream([Waiting(b[n..])] + more) == b[n..] + Stream(more) by {
            assert ([Waiting(b[n..])] + more)[1..] == more;
          }
          assert b == b[..n] + b[n..];
        } else if n > |b| {
          ReadSpecConsumes(more, n - |b|);
        }
      }
    }
  }

  /** Every byte waiting on the line in the outcomes `evs`, in order. */
  function Stream(evs: seq<ReadEvent>): seq<byte>
    decreases |evs|
  {
    if evs == [] then []
    else (if evs[0].Waiting? then evs[0].data else []) + Stream(evs[1..])
  }

  /** When the line has `n` bytes waiting in one piece, `readn` returns them and leaves the rest. */
  lemma {:induction false} ReadSpecOfWaiting(b: seq<byte>, more: seq<ReadEvent>, n: nat)
    requires 0 < n <= |b|
    ensures ReadSpec([Waiting(b)] + more, n) ==
      ReadResult(n, b[..n], if n == |b| then more else [Waiting(b[n..])] + more)
  {
    assert ([Waiting(b)] + more)[1..] == more;
  }

  /** `writen(buffer, n)` of the bytes `pending` against the outcomes `evs`. */
  function WriteSpec(evs: seq<WriteEvent>, pending: seq<byte>): (r: WriteResult)
    decreases |evs|
  {
    if pending == [] then WriteResult(0, [], evs)
    else if evs == [] then WriteResult(|pending|, pending, [])
    else match evs[0]
      case WriteInterrupted => WriteSpec(evs[1..], pending)
      case WriteFailed => WriteResult(-1, [], evs[1..])
      case Takes(k) =>
        if k == 0 then WriteResult(-1, [], evs[1..])
        else if |pending| <= k then WriteResult(|pending|, pending, evs[1..])
        else
          Resumed(pending[..k], |pending|, WriteSpec(evs[1..], pending[k..]))
  }

  /** The result of a write of `total` bytes that had already passed `done` to the line before `r`. */
  function Resumed(done: seq<byte>, total: nat, r: WriteResult): WriteResult
  {
    WriteResult(if r.count < 0 then -1 else total, done + r.taken, r.rest)
  }

  lemma {:induction false} ResumedCombine(a: seq<byte>, total: nat, b: seq<byte>, part: nat, r: WriteResult)
    ensures Resumed(a, total, Resumed(b, part, r)) == Resumed(a + b, total, r)
  {
    assert a + (b + r.taken) == (a + b) + r.taken;
  }

  lemma {:induction false} ContinuedCombine(a: nat, x: seq<byte>, b: nat, y: seq<byte>, r: ReadResult)
    ensures Continued(a, x, Continued(b, y, r)) == Continued(a + b, x + y, r)
  {
    assert x + (y + r.data) == (x + y) + r.data;
  }

  /**
   * `writen` returns either the full count, having passed every byte to the line,
   * or -1, having passed some first part of them.
   */
  lemma {:induction false} WriteSpecAllOrFail(evs: seq<WriteEvent>, pending: seq<byte>)
    ensures var r := WriteSpec(evs, pending);
      (r.count == |pending| && r.taken == pending) || (r.count == -1 && r.taken <= pending)
    decreases |evs|
  {
    if pending != [] && evs != [] {
      match evs[0]
      case WriteInterrupted => WriteSpecAllOrFail(evs[1..], pending);
      case WriteFailed =>
      case Takes(k) =>
        if 0 < k < |pending| {
          WriteSpecAllOrFail(evs[1..], pending[k..]);
          assert pending == pending[..k] + pending[k..];
        }
    }
  }

  /** Moving the split point of `bytes` forward by `took`. */
  lemma {:induction false} Advance(before: seq<byte>, bytes: seq<byte>, done: nat, took: nat)
    requires done + took <= |bytes|
    ensures bytes[done..][took..] == bytes[done + took..]
    ensures bytes[..done + took] == bytes[..done] + bytes[done..][..took]
    ensures before + bytes[..done] + bytes[done..][..took] == before + bytes[..done + took]
  {
    assert bytes[..done + took] == bytes[..done] + bytes[done..][..took];
  }

  /** How one poll-and-read or one write ended. */
  datatype IoStep = Progressed | Interrupted | Ended | Failed

  class SerialLine {
    /** The read outcomes still to come. */
    var input: seq<ReadEvent>
    /** The write outcomes still to come. */
    var writes: seq<WriteEvent>
    /** Every byte the line has taken, in order. */
    var output: seq<byte>

    constructor (input: seq<ReadEvent>, writes: seq<WriteEvent>)
      ensures this.input == input && this.writes == writes && output == []
    {
      this.input := input;
      this.writes := writes;
      output := [];
    }

    /** One poll followed by one read of at most `want` bytes. */
    method PollRead(want: nat) returns (st: IoStep, got: seq<byte>)
      requires want > 0
      modifies this
      ensures writes == old(writes) && output == old(output)
      ensures st == Ended ==> ReadSpec(old(input), want) == ReadResult(0, [], input)
      ensures st == Failed ==> ReadSpec(old(input), want) == ReadResult(-1, [], input)
      ensures st == Interrupted ==> ReadSpec(old(input), want) == ReadSpec(input, want) && |input| < |old(input)|
      ensures st == Progressed ==> (0 < |got| <= want &&
        ReadSpec(old(input), want) == Continued(|got|, got, ReadSpec(input, want - |got|)))
    {
      got := [];
      if input == [] {
        return Ended, got;
      }
      var ev := input[0];
      input := input[1..];
      match ev {
        case PollTimeout => st := Ended;
        case EndOfFile => st := Ended;
        case ReadInterrupted => st := Interrupted;
        case ReadFailed => st := Failed;
        case Waiting(b) =>
          if b == [] {
            st := Ended;
          } else if want < |b| {
            input := [Waiting(b[want..])] + input;
            st, got := Progressed, b[..want];
          } else {
            st, got := Progressed, b;
          }
      }
    }

    /** `readn`: poll, then read what is still missing, until `n` bytes are stored or the line stops. */
    method ReadN(n: nat) returns (count: int, data: seq<byte>)
      modifies this
      ensures ReadSpec(old(input), n) == ReadResult(count, data, input)
      ensures writes == old(writes) && output == old(output)
    {
      var toRead: nat := 0;
      data := [];
      while toRead < n
        invariant toRead <= n && |data| == toRead
        invariant ReadSpec(old(input), n) == Continued(toRead, data, ReadSpec(input, n - toRead))
        invariant writes == old(writes) && output == old(output)
        decreases n - toRead, |input|
      {
        var st, got := PollRead(n - toRead);
        if st == Ended {
          return toRead, data;
        } else if st == Failed {
          return -1, [];
        } else if st == Progressed {
          ContinuedCombine(toRead, data, |got|, got, ReadSpec(input, n - toRead - |got|));
          data := data + got;
          toRead := toRead + |got|;
        }
      }
      return toRead, data;
    }

    /** One write of the bytes `pending`. */
    method WriteOnce(pending: seq<byte>) returns (st: IoStep, took: nat)
      requires pending != []
      modifies this
      ensures input == old(input)
      ensures took <= |pending| && output == old(output) + pending[..took]
      ensures st != Progressed ==> output == old(output)
      ensures st == Failed ==> WriteSpec(old(writes), pending) == WriteResult(-1, [], writes)
      ensures st == Interrupted ==> WriteSpec(old(writes), pending) == WriteSpec(writes, pending) && |writes| < |old(writes)|
      ensures st == Progressed ==> (0 < took &&
        WriteSpec(old(writes), pending) == Resumed(pending[..took], |pending|, WriteSpec(writes, pending[took..])))
      ensures st != Ended
    {
      if writes == [] {
        output := output + pending;
        assert pending[..|pending|] == pending && pending[|pending|..] == [];
        return Progressed, |pending|;
      }
      var ev := writes[0];
      writes := writes[1..];
      match ev {
        case WriteInterrupted => st, took := Interrupted, 0;
        case WriteFailed => st, took := Failed, 0;
        case Takes(k) =>
          if k == 0 {
            st, took := Failed, 0;
          } else {
            took := if |pending| <= k then |pending| else k;
            st := Progressed;
            output := output + pending[..took];
            if took == |pending| {
              assert pending[..took] == pending && pending[took..] == [];
            }
          }
      }
      if st != Progressed {
        assert pending[..0] == [];
      }
    }

    /** `writen`: write what is still pending until all of it is taken or a write fails. */
    method WriteN(bytes: seq<byte>) returns (count: int)
      modifies this
      ensures var r := WriteSpec(old(writes), bytes);
        count == r.count && output == old(output) + r.taken && writes == r.rest
      ensures input == old(input)
    {
      var toWrite: nat := 0;
      assert bytes[toWrite..] == bytes;
      WriteSpecAllOrFail(writes, bytes);
      while toWrite < |bytes|
        invariant toWrite <= |bytes|
        invariant WriteSpec(old(writes), bytes) == Resumed(bytes[..toWrite], |bytes|, WriteSpec(writes, bytes[toWrite..]))
        invariant output == old(output) + bytes[..toWrite] && input == old(input)
        decreases |bytes| - toWrite, |writes|
      {
        var pending := bytes[toWrite..];
        var st, took := WriteOnce(pending);
        if st == Failed {
          assert bytes[..toWrite] + [] == bytes[..toWrite];
          return -1;
        } else if st == Progressed {
          ResumedCombine(bytes[..toWrite], |bytes|, pending[..took], |pending|, WriteSpec(writes, pending[took..]));
          Advance(old(output), bytes, toWrite, took);
          toWrite := toWrite + took;
        }
      }
      assert bytes[toWrite..] == [] && bytes[..toWrite] == bytes;
      return |bytes|;
    }
  }
}
