/** How the bytes that arrive from a peer are cut into messages. */
module NetMessages {
  import opened Coins

  const HEADER_SIZE: nat := 24
  const MAX_SIZE: nat := 0x02000000

  /** nMessageSize, behind the four start bytes and the twelve of the command. */
  function SizeOf(hdr: seq<byte>): nat
    requires |hdr| >= HEADER_SIZE
  {
    hdr[16] as int + 0x100 * hdr[17] as int + 0x10000 * hdr[18] as int + 0x1000000 * hdr[19] as int
  }

  /** The bytes of a stream up to the end of its first message. */
  function FrameSize(s: seq<byte>): (n: nat)
    requires |s| >= HEADER_SIZE
    ensures n >= HEADER_SIZE
  {
    HEADER_SIZE + SizeOf(s)
  }

  /** The messages of a stream; the last may be incomplete. */
  function Frames(s: seq<byte>): seq<seq<byte>> {
    if s == [] then []
    else if |s| < HEADER_SIZE || |s| <= FrameSize(s) then [s]
    else [s[..FrameSize(s)]] + Frames(s[FrameSize(s)..])
  }

  /** Some header of the stream announces too much. */
  predicate Bad(s: seq<byte>) {
    |s| >= HEADER_SIZE && (SizeOf(s) > MAX_SIZE || (|s| > FrameSize(s) && Bad(s[FrameSize(s)..])))
  }

  predicate Complete(raw: seq<byte>) { |raw| >= HEADER_SIZE && |raw| == FrameSize(raw) }

  /** How many more bytes the message takes before its header or its data is full. */
  function Room(raw: seq<byte>): int {
    if |raw| < HEADER_SIZE then HEADER_SIZE - |raw| else FrameSize(raw) - |raw|
  }

  function Concat(list: seq<seq<byte>>): seq<byte> {
    if list == [] then [] else list[0] + Concat(list[1..])
  }

  lemma {:induction false} FramesConcat(s: seq<byte>)
    ensures Concat(Frames(s)) == s
    ensures forall i | 0 <= i < |Frames(s)| :: Frames(s)[i] != [] && (i < |Frames(s)| - 1 ==> Complete(Frames(s)[i]))
    ensures s != [] ==> Frames(s) != []
  {
    hide SizeOf, Complete;
    if s == [] {
    } else if |s| >= HEADER_SIZE && |s| > FrameSize(s) {
      var n := FrameSize(s);
      FramesConcat(s[n..]);
      FramesRest(s);
      FirstComplete(s);
      ConcatCons(s[..n], Frames(s[n..]));
    } else {
      assert Concat([s]) == s + Concat([]);
    }
  }

  lemma ConcatCons(a: seq<byte>, list: seq<seq<byte>>)
    ensures Concat([a] + list) == a + Concat(list)
  {
    assert ([a] + list)[1..] == list;
  }

  lemma FirstComplete(s: seq<byte>)
    requires |s| >= HEADER_SIZE && |s| > FrameSize(s)
    ensures Complete(s[..FrameSize(s)])
  {
    assert SizeOf(s[..FrameSize(s)]) == SizeOf(s);
  }

  lemma SizePrefix(s: seq<byte>, t: seq<byte>)
    requires |s| >= HEADER_SIZE
    ensures SizeOf(s + t) == SizeOf(s) && FrameSize(s + t) == FrameSize(s)
  {
  }

  /** More bytes for the message that is not complete yet. */
  lemma {:induction false} FramesExtend(s: seq<byte>, part: seq<byte>)
    requires s != [] && Frames(s) != []
    requires var last := Frames(s)[|Frames(s)| - 1]; !Complete(last) && 0 < |part| <= Room(last)
    ensures var n := |Frames(s)| - 1;
            Frames(s + part) == Frames(s)[..n] + [Frames(s)[n] + part]
  {
    hide SizeOf, Bad;
    if |s| >= HEADER_SIZE {
      SizePrefix(s, part);
    }
    if |s| >= HEADER_SIZE && |s| > FrameSize(s) {
      var k := FrameSize(s);
      FramesConcat(s[k..]);
      FramesRest(s);
      FramesExtend(s[k..], part);
      assert (s + part)[..k] == s[..k] && (s + part)[k..] == s[k..] + part;
      FramesRest(s + part);
    } else {
      assert Frames(s) == [s];
    }
  }

  lemma {:induction false} BadExtend(s: seq<byte>, part: seq<byte>)
    requires s != [] && Frames(s) != [] && !Bad(s)
    requires var last := Frames(s)[|Frames(s)| - 1]; !Complete(last) && 0 < |part| <= Room(last)
    ensures var last := Frames(s)[|Frames(s)| - 1];
            Bad(s + part) <==> |last| < HEADER_SIZE <= |last + part| && SizeOf(last + part) > MAX_SIZE
  {
    hide SizeOf;
    if |s| >= HEADER_SIZE {
      SizePrefix(s, part);
    }
    if |s| >= HEADER_SIZE && |s| > FrameSize(s) {
      var k := FrameSize(s);
      FramesConcat(s[k..]);
      FramesRest(s);
      BadExtend(s[k..], part);
      assert (s + part)[k..] == s[k..] + part;
      FramesRest(s + part);
    } else {
      assert Frames(s) == [s];
    }
  }

  lemma FramesRest(s: seq<byte>)
    requires |s| >= HEADER_SIZE && |s| > FrameSize(s)
    ensures Frames(s) == [s[..FrameSize(s)]] + Frames(s[FrameSize(s)..]) && Frames(s)[1..] == Frames(s[FrameSize(s)..])
    ensures Bad(s) <==> SizeOf(s) > MAX_SIZE || Bad(s[FrameSize(s)..])
  {
  }

  /** A new message behind complete ones. */
  lemma {:induction false} FramesNew(s: seq<byte>, part: seq<byte>)
    requires s == [] || (Frames(s) != [] && Complete(Frames(s)[|Frames(s)| - 1]))
    requires 0 < |part| <= HEADER_SIZE
    ensures Frames(s + part) == Frames(s) + [part]
    ensures !Bad(s) ==> (Bad(s + part) <==> |part| == HEADER_SIZE && SizeOf(part) > MAX_SIZE)
  {
    hide SizeOf, Frames, Bad;
    OnlyPart(part);
    if s == [] {
      OnlyPart(s);
      assert s + part == part;
    } else if |s| >= HEADER_SIZE && |s| > FrameSize(s) {
      var k := FrameSize(s);
      SizePrefix(s, part);
      assert (s + part)[..k] == s[..k] && (s + part)[k..] == s[k..] + part;
      FramesRest(s + part);
      FramesConcat(s[k..]);
      FramesRest(s);
      FramesNew(s[k..], part);
    } else {
      OnlyPart(s);
      OneInFront(s, part);
    }
  }

  lemma OnlyPart(s: seq<byte>)
    requires |s| >= HEADER_SIZE ==> |s| <= FrameSize(s)
    ensures Frames(s) == if s == [] then [] else [s]
    ensures Bad(s) <==> |s| >= HEADER_SIZE && SizeOf(s) > MAX_SIZE
  {
  }

  /** What went wrong stays wrong. */
  lemma {:induction false} BadStays(s: seq<byte>, more: seq<byte>)
    requires Bad(s)
    ensures Bad(s + more)
  {
    assert SizeOf(s + more) == SizeOf(s);
    if SizeOf(s) <= MAX_SIZE {
      var k := FrameSize(s);
      BadStays(s[k..], more);
      assert (s + more)[k..] == s[k..] + more;
    }
  }

  /** Complete messages at the front of a stream are its first frames, whatever follows. */
  lemma {:induction false} FramesBehind(msgs: seq<seq<byte>>, s: seq<byte>)
    requires forall i | 0 <= i < |msgs| :: Complete(msgs[i]) && SizeOf(msgs[i]) <= MAX_SIZE
    ensures Frames(Concat(msgs) + s) == msgs + Frames(s) && (Bad(Concat(msgs) + s) <==> Bad(s))
  {
    hide SizeOf, Frames, Bad;
    if msgs == [] {
      assert Concat(msgs) + s == s && msgs + Frames(s) == Frames(s);
    } else {
      FramesBehind(msgs[1..], s);
      OneInFront(msgs[0], Concat(msgs[1..]) + s);
      assert Concat(msgs) + s == msgs[0] + (Concat(msgs[1..]) + s);
      assert msgs == [msgs[0]] + msgs[1..];
    }
  }

  lemma OneInFront(m: seq<byte>, s: seq<byte>)
    requires Complete(m)
    ensures Frames(m + s) == [m] + Frames(s)
    ensures Bad(m + s) <==> SizeOf(m) > MAX_SIZE || Bad(s)
  {
    hide SizeOf, Frames, Bad;
    if s == [] {
      OnlyPart(s);
      OnlyPart(m);
      assert m + s == m;
    } else {
      SizePrefix(m, s);
      assert (m + s)[..|m|] == m && (m + s)[|m|..] == s;
      FramesRest(m + s);
    }
  }

  /** Whatever complete messages are sent one behind the other are found again. */
  lemma {:induction false} SentAreFound(msgs: seq<seq<byte>>)
    requires forall i | 0 <= i < |msgs| :: Complete(msgs[i]) && SizeOf(msgs[i]) <= MAX_SIZE
    ensures Frames(Concat(msgs)) == msgs && !Bad(Concat(msgs))
  {
    if msgs != [] {
      var s, k := Concat(msgs), |msgs[0]|;
      SentAreFound(msgs[1..]);
      assert s[..k] == msgs[0] && s[k..] == Concat(msgs[1..]);
      assert SizeOf(s) == SizeOf(msgs[0]);
      if |msgs| == 1 {
        assert s == msgs[0];
      } else {
        assert Concat(msgs[1..]) != [] by {
          assert msgs[1..][0] == msgs[1];
        }
        assert msgs == [msgs[0]] + msgs[1..];
      }
    }
  }

  /** CNetMessage. */
  class CNetMessage {
    var in_data: bool
    var hdrbuf: seq<byte>
    var nMessageSize: nat
    var nHdrPos: nat
    var vRecv: seq<byte>
    var nDataPos: nat

    ghost predicate Valid()
      reads this
    {
      && |hdrbuf| == HEADER_SIZE
      && if in_data then nHdrPos == HEADER_SIZE && nMessageSize == SizeOf(hdrbuf) == |vRecv| && nDataPos <= nMessageSize
         else nHdrPos < HEADER_SIZE && nDataPos == 0 && vRecv == []
    }

    /** The bytes received for this message. */
    ghost function Raw(): (raw: seq<byte>)
      reads this
      requires Valid()
    {
      hdrbuf[..nHdrPos] + vRecv[..nDataPos]
    }

    constructor ()
      ensures Valid() && Raw() == []
    {
      in_data, hdrbuf, nMessageSize, nHdrPos, vRecv, nDataPos := false, seq(HEADER_SIZE, _ => 0), 0, 0, [], 0;
    }

    predicate complete()
      reads this
      requires Valid()
      ensures complete() <==> Complete(Raw())
      ensures !complete() ==> Room(Raw()) == (if in_data then nMessageSize - nDataPos else HEADER_SIZE - nHdrPos) > 0
    {
      assert in_data ==> SizeOf(Raw()) == SizeOf(hdrbuf);
      in_data && nMessageSize == nDataPos
    }

    method readHeader(pch: seq<byte>) returns (ok: bool, nCopy: nat)
      requires Valid() && !in_data && pch != []
      modifies this
      ensures 0 < nCopy <= |pch| && nCopy == if |pch| < Room(old(Raw())) then |pch| else Room(old(Raw()))
      ensures var raw := old(Raw()) + pch[..nCopy];
              && (ok <==> |raw| < HEADER_SIZE || SizeOf(raw) <= MAX_SIZE)
              && (ok ==> Valid() && Raw() == raw)
    {
      var nRemaining := HEADER_SIZE - nHdrPos;
      nCopy := if nRemaining < |pch| then nRemaining else |pch|;
      ghost var raw := Raw() + pch[..nCopy];
      hdrbuf := hdrbuf[..nHdrPos] + pch[..nCopy] + hdrbuf[nHdrPos + nCopy..];
      nHdrPos := nHdrPos + nCopy;
      assert hdrbuf[..nHdrPos] == raw;
      if nHdrPos < HEADER_SIZE {
        return true, nCopy;
      }
      assert hdrbuf == raw;
      nMessageSize := SizeOf(hdrbuf);
      if nMessageSize > MAX_SIZE {
        return false, nCopy;
      }
      in_data := true;
      vRecv := seq(nMessageSize, _ => 0);
      ok := true;
    }

    method readData(pch: seq<byte>) returns (nCopy: nat)
      requires Valid() && in_data && !complete() && pch != []
      modifies this
      ensures 0 < nCopy <= |pch| && nCopy == if |pch| < Room(old(Raw())) then |pch| else Room(old(Raw()))
      ensures Valid() && Raw() == old(Raw()) + pch[..nCopy] && |old(Raw())| >= HEADER_SIZE
    {
      var nRemaining := nMessageSize - nDataPos;
      nCopy := if nRemaining < |pch| then nRemaining else |pch|;
      ghost var was := vRecv[..nDataPos];
      vRecv := vRecv[..nDataPos] + pch[..nCopy] + vRecv[nDataPos + nCopy..];
      nDataPos := nDataPos + nCopy;
      assert vRecv[..nDataPos] == was + pch[..nCopy];
    }
  }

  /** A message and its first bytes. */
  method NewMessage(pch: seq<byte>) returns (msg: CNetMessage, ok: bool, nCopy: nat)
    requires pch != []
    ensures fresh(msg) && 0 < nCopy <= |pch| && nCopy <= HEADER_SIZE
    ensures ok <==> nCopy < HEADER_SIZE || SizeOf(pch[..nCopy]) <= MAX_SIZE
    ensures ok ==> msg.Valid() && msg.Raw() == pch[..nCopy]
  {
    hide SizeOf;
    msg := new CNetMessage();
    ok, nCopy := msg.readHeader(pch);
    assert [] + pch[..nCopy] == pch[..nCopy];
  }

  ghost predicate AllValid(msgs: seq<CNetMessage>)
    reads msgs
  {
    forall i | 0 <= i < |msgs| :: msgs[i].Valid()
  }

  /** The bytes received for each message. */
  ghost function RawsOf(msgs: seq<CNetMessage>): (raws: seq<seq<byte>>)
    reads msgs
    requires AllValid(msgs)
    ensures |raws| == |msgs|
  {
    if msgs == [] then [] else RawsOf(msgs[..|msgs| - 1]) + [msgs[|msgs| - 1].Raw()]
  }

  lemma RawsLast(msgs: seq<CNetMessage>)
    requires msgs != [] && AllValid(msgs)
    ensures AllValid(msgs[..|msgs| - 1]) && msgs[|msgs| - 1].Valid()
    ensures RawsOf(msgs) == RawsOf(msgs[..|msgs| - 1]) + [msgs[|msgs| - 1].Raw()]
  {
  }

  lemma RawsSnoc(msgs: seq<CNetMessage>, m: CNetMessage)
    requires m.Valid() && AllValid(msgs)
    ensures AllValid(msgs + [m]) && RawsOf(msgs + [m]) == RawsOf(msgs) + [m.Raw()]
  {
    assert (msgs + [m])[..|msgs|] == msgs;
  }

  /** The messages are those of the stream they make up, and none is too large. */
  ghost predicate Agrees(raws: seq<seq<byte>>) { Frames(Concat(raws)) == raws && !Bad(Concat(raws)) }

  lemma AgreeIs(raws: seq<seq<byte>>)
    requires Agrees(raws)
    ensures Frames(Concat(raws)) == raws && !Bad(Concat(raws))
  {
  }

  lemma AgreesNew(raws: seq<seq<byte>>, part: seq<byte>)
    requires Agrees(raws) && 0 < |part| <= HEADER_SIZE && (raws == [] || Complete(raws[|raws| - 1]))
    ensures Bad(Concat(raws) + part) <==> |part| == HEADER_SIZE && SizeOf(part) > MAX_SIZE
    ensures !Bad(Concat(raws) + part) ==> Agrees(raws + [part]) && Concat(raws + [part]) == Concat(raws) + part
  {
    hide Frames, Bad, SizeOf, Concat, Complete;
    NoBytes();
    FramesNew(Concat(raws), part);
    FramesConcat(Concat(raws) + part);
  }

  lemma AgreesMore(raws: seq<seq<byte>>, part: seq<byte>)
    requires Agrees(raws) && raws != [] && !Complete(raws[|raws| - 1]) && 0 < |part| <= Room(raws[|raws| - 1])
    ensures var n := |raws| - 1;
            && (Bad(Concat(raws) + part) <==> |raws[n]| < HEADER_SIZE <= |raws[n] + part|
                                              && SizeOf(raws[n] + part) > MAX_SIZE)
            && (!Bad(Concat(raws) + part) ==>
                  Agrees(raws[..n] + [raws[n] + part]) && Concat(raws[..n] + [raws[n] + part]) == Concat(raws) + part)
  {
    hide Bad, SizeOf, Complete, Room;
    FramesConcat(Concat(raws));
    FramesExtend(Concat(raws), part);
    BadExtend(Concat(raws), part);
    FramesConcat(Concat(raws) + part);
  }

  lemma AgreesTail(raws: seq<seq<byte>>)
    requires Agrees(raws) && raws != [] && Complete(raws[0])
    ensures Agrees(raws[1..]) && Concat(raws) == raws[0] + Concat(raws[1..])
  {
    FirstSmall(raws);
    hide Frames, Bad, SizeOf, Complete;
    OneInFront(raws[0], Concat(raws[1..]));
    assert ([raws[0]] + Frames(Concat(raws[1..])))[1..] == Frames(Concat(raws[1..]));
  }

  lemma FirstSmall(raws: seq<seq<byte>>)
    requires !Bad(Concat(raws)) && raws != [] && Complete(raws[0])
    ensures SizeOf(raws[0]) <= MAX_SIZE
  {
    SizePrefix(raws[0], Concat(raws[1..]));
  }

  /** What is left when complete messages are taken off the front agrees with itself. */
  lemma {:induction false} AgreesRest(raws: seq<seq<byte>>, n: nat)
    requires Agrees(raws) && n <= |raws| && forall i | 0 <= i < n :: Complete(raws[i])
    ensures Agrees(raws[n..]) && Concat(raws) == Concat(raws[..n]) + Concat(raws[n..])
  {
    hide Agrees, Complete;
    if n == 0 {
      assert raws[n..] == raws && raws[..n] == [];
    } else {
      AgreesTail(raws);
      AgreesRest(raws[1..], n - 1);
      assert raws[1..][n - 1..] == raws[n..] && raws[..n][1..] == raws[1..][..n - 1];
    }
  }

  lemma RawsSplit(msgs: seq<CNetMessage>, n: nat)
    requires AllValid(msgs) && n <= |msgs|
    ensures AllValid(msgs[n..]) && RawsOf(msgs[n..]) == RawsOf(msgs)[n..]
    ensures forall i | 0 <= i < |msgs| :: RawsOf(msgs)[i] == msgs[i].Raw()
  {
    RawsEach(msgs);
    RawsEach(msgs[n..]);
    assert RawsOf(msgs[n..]) == RawsOf(msgs)[n..];
  }

  lemma {:induction false} RawsEach(msgs: seq<CNetMessage>)
    requires AllValid(msgs)
    ensures forall i | 0 <= i < |msgs| :: RawsOf(msgs)[i] == msgs[i].Raw()
  {
    if msgs != [] {
      RawsEach(msgs[..|msgs| - 1]);
    }
  }

  lemma NoBytes()
    ensures Concat([]) == [] && Frames([]) == []
  {
  }

  /** The part of CNode that receives. */
  class CNode {
    var vRecvMsg: seq<CNetMessage>

    ghost predicate Valid()
      reads this, vRecvMsg
    {
      && (forall i, j | 0 <= i < j < |vRecvMsg| :: vRecvMsg[i] != vRecvMsg[j])
      && AllValid(vRecvMsg) && Agrees(RawsOf(vRecvMsg))
    }

    /** All bytes received so far. */
    ghost function Stream(): seq<byte>
      reads this, vRecvMsg
      requires AllValid(vRecvMsg)
    {
      Concat(RawsOf(vRecvMsg))
    }

    constructor ()
      ensures Valid() && Stream() == [] && vRecvMsg == []
    {
      vRecvMsg := [];
    }

    ghost function Msgs(): set<CNetMessage>
      reads this
    {
      set m | m in vRecvMsg
    }

    /** What ProcessMessages does to the queue: it takes some complete messages off its front. */
    method TakeFront(n: nat)
      requires Valid() && n <= |vRecvMsg| && forall i | 0 <= i < n :: vRecvMsg[i].Valid() && vRecvMsg[i].complete()
      modifies this
      ensures Valid() && RawsOf(vRecvMsg) == old(RawsOf(vRecvMsg))[n..]
      ensures old(Stream()) == Concat(old(RawsOf(vRecvMsg))[..n]) + Stream()
    {
      hide RawsOf, AllValid, Agrees, Concat;
      RawsSplit(vRecvMsg, n);
      AgreesRest(RawsOf(vRecvMsg), n);
      vRecvMsg := vRecvMsg[n..];
    }

    /** A round of the loop of ReceiveMsgBytes that begins a message. */
    method BeginMessage(pch: seq<byte>) returns (ok: bool, handled: nat)
      requires Valid() && pch != []
      requires vRecvMsg != [] ==> vRecvMsg[|vRecvMsg| - 1].Valid() && vRecvMsg[|vRecvMsg| - 1].complete()
      modifies this
      ensures 0 < handled <= |pch|
      ensures ok <==> !Bad(old(Stream()) + pch[..handled])
      ensures ok ==> Valid() && Stream() == old(Stream()) + pch[..handled]
      ensures forall m | m in Msgs() :: m in old(Msgs()) || fresh(m)
    {
      hide Agrees, Bad, SizeOf, Concat, Complete, RawsOf, AllValid;
      ghost var msgs := vRecvMsg;
      if |vRecvMsg| > 0 {
        RawsLast(msgs);
      }
      var msg;
      msg, ok, handled := NewMessage(pch);
      AgreesNew(RawsOf(msgs), pch[..handled]);
      if ok {
        RawsSnoc(msgs, msg);
      }
      vRecvMsg := vRecvMsg + [msg];
    }

    /** A round that gives the last message more. */
    method Continue(pch: seq<byte>) returns (ok: bool, handled: nat)
      requires Valid() && pch != [] && vRecvMsg != [] && vRecvMsg[|vRecvMsg| - 1].Valid()
          && !vRecvMsg[|vRecvMsg| - 1].complete()
      modifies vRecvMsg[|vRecvMsg| - 1]
      ensures 0 < handled <= |pch|
      ensures ok <==> !Bad(old(Stream()) + pch[..handled])
      ensures ok ==> Valid() && Stream() == old(Stream()) + pch[..handled]
    {
      hide Agrees, Bad, SizeOf, Concat, Complete, RawsOf, AllValid;
      ghost var n := |vRecvMsg| - 1;
      RawsLast(vRecvMsg);
      ghost var raws, before := RawsOf(vRecvMsg), RawsOf(vRecvMsg[..n]);
      var msg := vRecvMsg[|vRecvMsg| - 1];
      if !msg.in_data {
        ok, handled := msg.readHeader(pch);
      } else {
        handled := msg.readData(pch);
        ok := true;
      }
      AgreesMore(raws, pch[..handled]);
      if ok {
        assert vRecvMsg == vRecvMsg[..n] + [msg];
        RawsSnoc(vRecvMsg[..n], msg);
        assert raws[..n] == before;
      }
    }

    /** ReceiveMsgBytes: what the messages are afterwards, and whether the peer is dropped, depends on the
        bytes received in all and not on how they were divided among the calls. */
    method ReceiveMsgBytes(pch0: seq<byte>) returns (ok: bool)
      requires Valid()
      modifies this, Msgs()
      ensures ok <==> !Bad(old(Stream()) + pch0)
      ensures ok ==> Valid() && Stream() == old(Stream()) + pch0 && RawsOf(vRecvMsg) == Frames(old(Stream()) + pch0)
      ensures forall m | m in Msgs() :: m in old(Msgs()) || fresh(m)
    {
      hide Bad, SizeOf, Concat, RawsOf, Agrees, AllValid, Complete;
      var pch := pch0;
      ghost var stream := Stream();
      while |pch| > 0
        invariant Valid() && Stream() + pch == stream + pch0
        invariant forall m | m in Msgs() :: m in old(Msgs()) || fresh(m)
        decreases |pch|
      {
        ghost var before := Stream();
        var handled;
        if |vRecvMsg| > 0 {
          RawsLast(vRecvMsg);
        }
        if |vRecvMsg| == 0 || vRecvMsg[|vRecvMsg| - 1].complete() {
          ok, handled := BeginMessage(pch);
        } else {
          assert vRecvMsg[|vRecvMsg| - 1] in Msgs();
          ok, handled := Continue(pch);
        }
        assert pch == pch[..handled] + pch[handled..];
        assert before + pch[..handled] + pch[handled..] == stream + pch0;
        if !ok {
          BadStays(before + pch[..handled], pch[handled..]);
          return;
        }
        pch := pch[handled..];
      }
      assert Stream() + pch == Stream();
      AgreeIs(RawsOf(vRecvMsg));
      ok := true;
    }
  }
}
