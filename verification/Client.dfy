/** The receiving half of the client: its verifier, its drain loop and its read callback. */
module Client {
  import opened Bytes
  import opened Frame
  import opened Memory
  import opened Codec
  import opened Framing

  /** edio24_cli_verify_tcp; the payload is only printed, so it has no part in the result. */
  method VerifyTcp(buffer: array<byte>, szIn: nat) returns (ret: int, szProcessed: nat, szNeeded: nat)
    requires szIn <= buffer.Length
    ensures var v := Judge(Side.Client, buffer[..szIn]);
      if v.Accept? then ret == 0 && szProcessed == v.len && szNeeded == 0
      else if v.NeedMore? then ret == 1 && szProcessed == 0 && szNeeded == v.missing
      else szProcessed == szNeeded == 0 && ret == if v.Bad? then 2 else -1
    ensures if ret == 0 then 7 <= szProcessed <= szIn else szProcessed == 0
    ensures ret == 1 ==> szNeeded > 0
  {
    if szIn < 7 {
      return 1, 0, 7 - szIn;
    }
    var cmd := buffer[1] % 128;
    var r, count := ReadCount(buffer, szIn);
    if 7 + count > szIn {
      return 1, 0, 7 + count - szIn;
    }
    var v := Verify(buffer, szIn);
    if v != 0 {
      return 2, 0, 0;
    }
    if !IsKnown(cmd) {
      return -1, 0, 0;
    }
    return 0, 7 + count, 0;
  }

  const CAPACITY: nat := LENGTH_MIN + 1024

  class EdioClient {
    const buffer: array<byte>
    var szData: nat
    var numResponds: nat
    var numRequests: nat
    var frame: byte
    /** The packets handed to uv_write, oldest first. */
    var sent: seq<seq<byte>>

    /** History: every byte received, the frames counted as responses, the bytes a stall threw away. */
    ghost var stream: seq<byte>
    ghost var consumed: seq<seq<byte>>
    ghost var dropped: seq<byte>

    ghost predicate Sound()
      reads this
    {
      buffer.Length == CAPACITY && szData <= CAPACITY && numResponds == |consumed|
    }

    ghost function Contents(): seq<byte>
      requires szData <= buffer.Length
      reads this, buffer
    {
      buffer[..szData]
    }

    /** The client is in the one state that the bytes received so far determine. */
    ghost predicate Valid()
      reads this, buffer
    {
      Sound() && Recv(consumed, Contents(), dropped) == Received(Side.Client, CAPACITY, stream)
    }

    constructor ()
      ensures Valid() && fresh(buffer) && buffer.Length == 1031
      ensures stream == [] && sent == [] && frame == 0 && numRequests == 0
    {
      buffer := new byte[CAPACITY];
      szData, numResponds, numRequests, frame, sent := 0, 0, 0, 0, [];
      stream, consumed, dropped := [], [], [];
    }

    /** edio24cli_process_data: consume frames from the buffer until the verifier stops it. */
    method ProcessData()
      requires Sound()
      modifies this`szData, this`numResponds, this`consumed, buffer
      ensures Sound()
      ensures old(consumed) <= consumed
      ensures Cut(consumed[|old(consumed)|..], Contents()) == CutStream(Side.Client, CAPACITY, old(Contents()))
    {
      hide Judge, Verifies, CutStream, Received;
      ghost var before := consumed;
      ghost var whole := CutStream(Side.Client, CAPACITY, Contents());
      assert whole == Onto([], whole);
      while true
        invariant Sound()
        invariant before <= consumed
        invariant whole == Onto(consumed[|before|..], CutStream(Side.Client, CAPACITY, Contents()))
        decreases szData
      {
        ghost var now := Contents();
        if !Judge(Side.Client, now).Accept? {
          DrainStops(Side.Client, CAPACITY, now);
        }
        var ret, szProcessed, szNeeded := VerifyTcp(buffer, szData);
        if szProcessed > 0 {
          szData := RemoveHead(buffer, szData, szProcessed);
          assert Contents() == now[szProcessed..];
        }
        if szNeeded > 0 {
          break;
        }
        if ret < 0 {
          break;
        } else if ret == 0 {
          DrainRound(Side.Client, CAPACITY, consumed[|before|..], now);
          ghost var f := now[..szProcessed];
          assert (consumed + [f])[|before|..] == consumed[|before|..] + [f];
          numResponds, consumed := numResponds + 1, consumed + [f];
        } else if ret == 2 {
          break;
        }
      }
    }

    /** Copies n received bytes behind the buffered ones. */
    method CopyIn(buf: array<byte>, from: nat, n: nat)
      requires Sound() && from + n <= buf.Length && buf != buffer && szData + n <= buffer.Length
      modifies this`szData, buffer
      ensures Sound() && Contents() == old(Contents()) + buf[from..from + n]
    {
      ghost var now := Contents();
      MemMove(buffer, szData, buf, from, n);
      szData := szData + n;
      assert Contents() == now + buf[from..from + n];
    }

    /** One round of the copying loop: n bytes are copied behind the buffered ones, then all is processed. */
    method CopyRound(buf: array<byte>, from: nat, n: nat, nread: nat)
      requires Sound() && buf != buffer && 0 < n && from + n <= nread <= buf.Length
      requires n == if nread - from <= buffer.Length - szData then nread - from else buffer.Length - szData
      modifies this`szData, this`numResponds, this`consumed, buffer
      ensures Sound() && old(consumed) <= consumed
      ensures Fill(Side.Client, CAPACITY, old(Contents()), buf[from..nread]) ==
        After(consumed[|old(consumed)|..], Fill(Side.Client, CAPACITY, Contents(), buf[from + n..nread]))
    {
      hide Judge, Verifies, CutStream, Received, Fill, After;
      ghost var now, pending, before := Contents(), buf[from..nread], consumed;
      assert pending[..n] == buf[from..from + n] && pending[n..] == buf[from + n..nread];
      CopyIn(buf, from, n);
      assert Contents() == now + pending[..n];
      ProcessData();
      FillRound(Side.Client, CAPACITY, now, pending, n, Cut(consumed[|before|..], Contents()));
    }

    /** The copying loop of on_tcp_cli_read: copy what fits and process, until all is copied or it stalls. */
    method CopyAndProcess(buf: array<byte>, nread: nat)
      requires Sound() && nread <= buf.Length && buf != buffer
      modifies this`szData, this`numResponds, this`consumed, this`dropped, buffer
      ensures Sound() && old(consumed) <= consumed && old(dropped) <= dropped
      ensures Recv(consumed[|old(consumed)|..], Contents(), dropped[|old(dropped)|..])
        == Fill(Side.Client, CAPACITY, old(Contents()), buf[..nread])
    {
      hide Judge, Verifies, CutStream, Received, Fill, After;
      ghost var before, lost := consumed, dropped;
      ghost var all := Fill(Side.Client, CAPACITY, Contents(), buf[..nread]);
      AfterAfter([], [], all);
      assert buf[0..nread] == buf[..nread] && consumed[|before|..] == [];
      var szProcessed := 0;
      while szProcessed < nread
        invariant Sound() && szProcessed <= nread
        invariant before <= consumed && dropped == lost
        invariant all == After(consumed[|before|..], Fill(Side.Client, CAPACITY, Contents(), buf[szProcessed..nread]))
      {
        var szCopy := nread - szProcessed;
        if szCopy + szData > buffer.Length {
          szCopy := buffer.Length - szData;
        }
        if szCopy > 0 {
          ghost var mid := consumed;
          CopyRound(buf, szProcessed, szCopy, nread);
          szProcessed := szProcessed + szCopy;
          ghost var rest := Fill(Side.Client, CAPACITY, Contents(), buf[szProcessed..nread]);
          AfterAfter(mid[|before|..], consumed[|mid|..], rest);
          assert consumed[|before|..] == mid[|before|..] + consumed[|mid|..];
        } else {
          break;
        }
      }
      FillEnds(Side.Client, CAPACITY, consumed[|before|..], Contents(), buf[szProcessed..nread]);
      dropped := dropped + buf[szProcessed..nread];
      assert dropped[|lost|..] == buf[szProcessed..nread];
    }

    /** on_tcp_cli_read for nread >= 0. */
    method OnRead(buf: array<byte>, nread: nat)
      requires Valid() && nread <= buf.Length && buf != buffer
      modifies this`szData, this`numResponds, this`consumed, this`stream, this`dropped, buffer
      ensures Valid()
      ensures stream == old(stream) + buf[..nread]
      ensures var o := ReadChunk(Side.Client, CAPACITY, old(Contents()), buf[..nread]);
        && consumed == old(consumed) + o.frames
        && Contents() == o.buf
        && dropped == old(dropped) + o.dropped
    {
      hide Judge, Verifies, CutStream, Received, Fill;
      ghost var chunk := buf[..nread];
      ReadChunkContinues(Side.Client, CAPACITY, stream, chunk);
      stream := stream + chunk;
      if nread > 0 {
        ghost var before, lost := consumed, dropped;
        ProcessData();
        ghost var mid := consumed;
        CopyAndProcess(buf, nread);
        assert consumed == before + (mid[|before|..] + consumed[|mid|..]);
        assert dropped == lost + dropped[|lost|..];
      } else {
        assert chunk == [];
        assert consumed + [] == consumed && dropped + [] == dropped;
      }
    }
  }
}
