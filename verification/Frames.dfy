/**
 Messages cut into fixed-size frames (`RpcSend` and `RpcRecv` of
 src/util/rpc_communication.cpp), over a wire that carries whole frames.
 */
module Frames {
  import opened Words

  const BODY_SIZE: nat := 512
  /** A body keeps room for its terminator. */
  const BLOCK: nat := 511

  datatype Frame = Frame(code: int, body: seq<Byte>)

  datatype Received = Received(text: seq<Byte>, id: int)

  /** The bytes before the first NUL: what `strlen` sees. */
  function CString(body: seq<Byte>): (s: seq<Byte>)
    ensures s <= body && 0 !in s && (|s| == |body| || body[|s|] == 0)
  {
    if body == [] || body[0] == 0 then [] else [body[0]] + CString(body[1..])
  }

  function Zeros(n: nat): seq<Byte> { seq(n, _ => 0) }

  /** A zeroed body with the block copied to its front. */
  function Body(block: seq<Byte>): seq<Byte>
    requires |block| <= BLOCK
  {
    block + Zeros(BODY_SIZE - |block|)
  }

  /** An id of zero goes out as one, since the code of a last frame must be negative. */
  function WireId(id: nat): int { if id == 0 then 1 else id }

  /** The frames of a message from block `i` on; a last frame exists only for a remainder. */
  function Framed(id: nat, m: seq<Byte>, i: nat): seq<Frame>
    decreases |m|
  {
    if |m| >= BLOCK then [Frame(i, Body(m[..BLOCK]))] + Framed(id, m[BLOCK..], i + 1)
    else if m == [] then []
    else [Frame(-WireId(id), Body(m))]
  }

  method RpcSend(wire: seq<Frame>, id: int, m: seq<Byte>) returns (code: int, wire': seq<Frame>)
    ensures id < 0 ==> code == -1 && wire' == wire
    ensures id >= 0 ==> code == 0 && wire' == wire + Framed(id, m, 0)
  {
    wire' := wire;
    if id < 0 {
      return -1, wire;
    }
    var transferId := if id == 0 then 1 else id;
    var blockNum := |m| / BLOCK + 1;
    assert m[0..] == m;
    for i := 0 to blockNum - 1
      invariant wire' + Framed(id, m[i * BLOCK..], i) == wire + Framed(id, m, 0)
    {
      var from, to := i * BLOCK, (i + 1) * BLOCK;
      var block := m[from..to];
      assert m[from..][..BLOCK] == block && m[from..][BLOCK..] == m[to..];
      wire' := wire' + [Frame(i, Body(block))];
    }
    var rest := m[(blockNum - 1) * BLOCK..];
    if |rest| != 0 {
      wire' := wire' + [Frame(-transferId, Body(rest))];
    }
    return 0, wire';
  }

  /** What one call takes off the wire: text up to a negative code, or all there is. */
  function Recv(acc: seq<Byte>, frames: seq<Frame>): (Received, seq<Frame>)
    decreases |frames|
  {
    if frames == [] then (Received(acc, 0), [])
    else
      var text := acc + CString(frames[0].body);
      if frames[0].code < 0 then (Received(text, -frames[0].code), frames[1..])
      else Recv(text, frames[1..])
  }

  method RpcRecv(wire: seq<Frame>, info: seq<Byte>) returns (id: int, info': seq<Byte>, wire': seq<Frame>)
    ensures Recv(info, wire) == (Received(info', id), wire')
  {
    info', wire', id := info, wire, 0;
    while true
      invariant Recv(info, wire) == Recv(info', wire')
      decreases |wire'|
    {
      if |wire'| == 0 {
        return 0, info', wire';
      }
      var frame := wire'[0];
      wire' := wire'[1..];
      info' := info' + CString(frame.body);
      if frame.code < 0 {
        return -frame.code, info', wire';
      }
    }
  }

  /** A body of 512 bytes: the block, then NULs. */
  ghost predicate Carries(frame: Frame, code: int, block: seq<Byte>) {
    && frame.code == code && |frame.body| == 512 && |block| <= 511 && frame.body[..|block|] == block
    && forall k | |block| <= k < 512 :: frame.body[k] == 0
  }

  /** One frame per full block of 511 bytes, and one for a remainder. */
  lemma {:induction false} FrameCount(id: nat, m: seq<Byte>, i: nat)
    ensures |Framed(id, m, i)| == |m| / 511 + if |m| % 511 == 0 then 0 else 1
    decreases |m|
  {
    if |m| >= BLOCK {
      FrameCount(id, m[BLOCK..], i + 1);
    }
  }

  /** The j-th full block goes out under its number. */
  lemma {:induction false} FullFrame(id: nat, m: seq<Byte>, i: nat, j: nat)
    requires 511 * j + 511 <= |m|
    ensures j < |Framed(id, m, i)| && Carries(Framed(id, m, i)[j], i + j, m[511 * j..511 * j + 511])
    decreases j
  {
    hide Body, Carries;
    if j == 0 {
      BodyCarries(i, m[..BLOCK]);
      assert m[0..511] == m[..BLOCK];
    } else {
      var tail, from := m[BLOCK..], 511 * (j - 1);
      FullFrame(id, tail, i + 1, j - 1);
      SliceOfRest(m, BLOCK, from, from + 511);
    }
  }

  /** The remainder goes out last, under the negated id, or under -1 for an id of zero. */
  lemma {:induction false} LastFrame(id: nat, m: seq<Byte>, i: nat)
    requires |m| % 511 != 0
    ensures var frames := Framed(id, m, i);
            frames != [] && Carries(frames[|frames| - 1], if id > 0 then -(id as int) else -1, m[|m| - |m| % 511..])
    decreases |m|
  {
    hide Body, Carries;
    if |m| < BLOCK {
      BodyCarries(if id > 0 then -(id as int) else -1, m);
      assert m[0..] == m;
    } else {
      var tail := m[BLOCK..];
      LastFrame(id, tail, i + 1);
      assert |tail| % 511 == |m| % 511;
      assert tail[|tail| - |tail| % 511..] == m[|m| - |m| % 511..];
    }
  }

  lemma SliceOfRest(m: seq<Byte>, n: nat, from: nat, to: nat)
    requires from <= to && n + to <= |m|
    ensures m[n..][from..to] == m[n + from..n + to]
  {}

  lemma BodyCarries(code: int, block: seq<Byte>)
    requires |block| <= BLOCK
    ensures Carries(Frame(code, Body(block)), code, block)
  {}

  // ----- What a message becomes -----

  /** Each block loses everything from its first NUL on. */
  function Surviving(m: seq<Byte>): seq<Byte>
    decreases |m|
  {
    if |m| >= BLOCK then CString(m[..BLOCK]) + Surviving(m[BLOCK..]) else CString(m)
  }

  lemma {:induction false} CStringWhole(block: seq<Byte>, rest: seq<Byte>)
    requires rest != [] && rest[0] == 0
    ensures CString(block + rest) == CString(block)
    decreases |block|
  {
    if block == [] {
      assert block + rest == rest;
    } else {
      assert (block + rest)[1..] == block[1..] + rest;
      CStringWhole(block[1..], rest);
    }
  }

  lemma CStringOfBody(block: seq<Byte>)
    requires |block| <= BLOCK
    ensures CString(Body(block)) == CString(block)
  {
    CStringWhole(block, Zeros(BODY_SIZE - |block|));
  }

  lemma {:induction false} CStringLossless(s: seq<Byte>)
    ensures CString(s) == s <==> 0 !in s
    decreases |s|
  {
    if s != [] && s[0] != 0 {
      CStringLossless(s[1..]);
      assert s == [s[0]] + s[1..];
    }
  }

  /** A message survives whole exactly when it holds no NUL. */
  lemma {:induction false} SurvivesIff(m: seq<Byte>)
    ensures |Surviving(m)| <= |m|
    ensures Surviving(m) == m <==> 0 !in m
    decreases |m|
  {
    if |m| >= BLOCK {
      var head, tail := m[..BLOCK], m[BLOCK..];
      assert m == head + tail;
      SurvivesIff(tail);
      CStringLossless(head);
      if Surviving(m) == m {
        assert |CString(head)| == |head|;
        assert Surviving(m)[..BLOCK] == CString(head) && Surviving(m)[BLOCK..] == Surviving(tail);
      }
    } else {
      CStringLossless(m);
    }
  }

  // ----- Streams of messages -----

  datatype Message = Message(id: int, text: seq<Byte>)

  function Wire(messages: seq<Message>): seq<Frame>
    decreases |messages|
  {
    if messages == [] then []
    else (if messages[0].id < 0 then [] else Framed(messages[0].id, messages[0].text, 0)) + Wire(messages[1..])
  }

  /** Repeated calls until the wire is drained. */
  function RecvAll(frames: seq<Frame>): seq<Received>
    decreases |frames|
  {
    if frames == [] then []
    else
      RecvShrinks([], frames);
      var r := Recv([], frames);
      [r.0] + RecvAll(r.1)
  }

  lemma {:induction false} RecvShrinks(acc: seq<Byte>, frames: seq<Frame>)
    ensures |Recv(acc, frames).1| <= |frames|
    ensures frames != [] ==> |Recv(acc, frames).1| < |frames|
    decreases |frames|
  {
    if frames != [] && frames[0].code >= 0 {
      RecvShrinks(acc + CString(frames[0].body), frames[1..]);
    }
  }

  /**
   What the receiver gets: messages run together until one whose length is not a multiple
   of the block, which ends the group and gives it its id.  `open` says that frames of an
   unfinished group are on the wire; at the end they come out with id zero.
   */
  function Groups(messages: seq<Message>, acc: seq<Byte>, open: bool): seq<Received>
    decreases |messages|
  {
    if messages == [] then (if open then [Received(acc, 0)] else [])
    else
      var Message(id, m) := messages[0];
      if id < 0 then Groups(messages[1..], acc, open)
      else if |m| % 511 != 0 then [Received(acc + Surviving(m), if id > 0 then id else 1)] + Groups(messages[1..], [], false)
      else Groups(messages[1..], acc + Surviving(m), open || m != [])
  }

  /** The receiver's answers when `acc` has already been read of an open group. */
  function Drain(acc: seq<Byte>, open: bool, frames: seq<Frame>): seq<Received>
  {
    if frames == [] && !open then []
    else
      RecvShrinks(acc, frames);
      var r := Recv(acc, frames);
      [r.0] + RecvAll(r.1)
  }

  lemma {:induction false} RecvMessage(acc: seq<Byte>, id: nat, m: seq<Byte>, i: nat, rest: seq<Frame>)
    ensures Recv(acc, Framed(id, m, i) + rest) ==
            if |m| % BLOCK != 0 then (Received(acc + Surviving(m), WireId(id)), rest)
            else Recv(acc + Surviving(m), rest)
    decreases |m|
  {
    hide CString, Body;
    if |m| >= BLOCK {
      var head, tail := m[..BLOCK], m[BLOCK..];
      var frame := Frame(i, Body(head));
      var more := Framed(id, tail, i + 1) + rest;
      assert Framed(id, m, i) + rest == [frame] + more;
      assert ([frame] + more)[1..] == more;
      CStringOfBody(head);
      RecvMessage(acc + CString(head), id, tail, i + 1, rest);
      assert acc + CString(head) + Surviving(tail) == acc + Surviving(m);
      assert |m| % BLOCK == |tail| % BLOCK;
    } else if m == [] {
      assert Framed(id, m, i) + rest == rest;
      assert acc + Surviving(m) == acc;
    } else {
      var frame := Frame(-WireId(id), Body(m));
      assert Framed(id, m, i) + rest == [frame] + rest;
      assert ([frame] + rest)[1..] == rest;
      CStringOfBody(m);
      assert |m| % BLOCK == |m|;
    }
  }

  lemma DrainMessage(acc: seq<Byte>, open: bool, id: nat, m: seq<Byte>, rest: seq<Frame>)
    ensures Drain(acc, open, Framed(id, m, 0) + rest) ==
            if |m| % BLOCK != 0 then [Received(acc + Surviving(m), WireId(id))] + RecvAll(rest)
            else Drain(acc + Surviving(m), open || m != [], rest)
  {
    RecvMessage(acc, id, m, 0, rest);
    assert Framed(id, m, 0) + rest == [] <==> m == [] && rest == [];
  }

  lemma {:induction false} DrainStream(messages: seq<Message>, acc: seq<Byte>, open: bool)
    ensures Drain(acc, open, Wire(messages)) == Groups(messages, acc, open)
    decreases |messages|
  {
    if messages == [] {
      assert Recv(acc, []) == (Received(acc, 0), []);
    } else {
      var Message(id, m) := messages[0];
      var rest := Wire(messages[1..]);
      if id < 0 {
        assert Wire(messages) == rest;
        DrainStream(messages[1..], acc, open);
      } else {
        DrainMessage(acc, open, id, m, rest);
        if |m| % BLOCK != 0 {
          DrainStream(messages[1..], [], false);
          assert Drain([], false, rest) == RecvAll(rest);
        } else {
          DrainStream(messages[1..], acc + Surviving(m), open || m != []);
        }
      }
    }
  }

  /** Any stream of messages is received as its groups, in order, and nothing else. */
  lemma StreamIsReceivedInGroups(messages: seq<Message>)
    ensures RecvAll(Wire(messages)) == Groups(messages, [], false)
  {
    DrainStream(messages, [], false);
    assert Drain([], false, Wire(messages)) == RecvAll(Wire(messages));
  }

  /**
   One message comes back with its id, or with one for an id of zero, leaving all later frames
   alone, exactly when it has no NUL and its length is not a multiple of 511.
   */
  lemma MessageRoundTripsIff(id: nat, m: seq<Byte>)
    ensures (forall rest: seq<Frame> ::
               Recv([], Framed(id, m, 0) + rest) == (Received(m, if id > 0 then id else 1), rest))
       <==> 0 !in m && |m| % 511 != 0
  {
    SurvivesIff(m);
    assert [] + Surviving(m) == Surviving(m);
    if |m| % BLOCK != 0 {
      forall rest: seq<Frame>
        ensures Recv([], Framed(id, m, 0) + rest) == (Received(Surviving(m), WireId(id)), rest)
      {
        RecvMessage([], id, m, 0, rest);
      }
      var none: seq<Frame> := [];
      assert Recv([], Framed(id, m, 0) + none) == (Received(Surviving(m), WireId(id)), none);
    } else {
      var none: seq<Frame> := [];
      RecvMessage([], id, m, 0, none);
      assert Recv([], Framed(id, m, 0) + none) == (Received(Surviving(m), 0), none);
    }
  }

  /** A NUL cuts its block short, and a message that fills its blocks is never ended. */
  lemma LossesHappen()
    ensures Recv([], Framed(7, [1, 0, 2], 0)) == (Received([1], 7), [])
    ensures forall m: seq<Byte> | |m| == 511 && 0 !in m :: Recv([], Framed(7, m, 0)) == (Received(m, 0), [])
  {
    var cut: seq<Byte>, none: seq<Frame> := [1, 0, 2], [];
    RecvMessage([], 7, cut, 0, none);
    assert Framed(7, cut, 0) + none == Framed(7, cut, 0);
    assert CString(cut[1..]) == [];
    assert [] + Surviving(cut) == [1];
    forall m: seq<Byte> | |m| == BLOCK && 0 !in m
      ensures Recv([], Framed(7, m, 0)) == (Received(m, 0), [])
    {
      RecvMessage([], 7, m, 0, none);
      assert Framed(7, m, 0) + none == Framed(7, m, 0);
      SurvivesIff(m);
      assert [] + Surviving(m) == m;
      assert Recv(m, none) == (Received(m, 0), none);
    }
  }
}
