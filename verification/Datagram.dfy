/** Cutting a message into datagrams and putting it together again. */
module Datagram {
  import opened Options

  /** Payload of one packet: the MTU without the header of five integers. */
  const PACK_DATA: nat := 4096 - 20

  datatype Packet = Packet(packetNum: nat, packetId: nat, totalLen: nat, data: seq<char>)

  function PacketCount(len: nat): (n: nat)
    ensures n > 0 && (n - 1) * PACK_DATA <= len < n * PACK_DATA
  {
    len / PACK_DATA + 1
  }

  /** Bytes in packet `i`: full ones, and a last one that may be empty. */
  function PacketLen(len: nat, i: nat): (n: nat)
    requires i < PacketCount(len)
    ensures i * PACK_DATA + n <= len && n <= PACK_DATA
    ensures i + 1 == PacketCount(len) ==> i * PACK_DATA + n == len
    ensures i + 1 < PacketCount(len) ==> n == PACK_DATA
  {
    if i == PacketCount(len) - 1 then len % PACK_DATA else PACK_DATA
  }

  /** The i-th packet of a message. */
  ghost function PacketOf(msg: seq<char>, i: nat): Packet
    requires i < PacketCount(|msg|)
  {
    Packet(PacketCount(|msg|), i, |msg|, msg[i * PACK_DATA..i * PACK_DATA + PacketLen(|msg|, i)])
  }

  /** RdmaSend. */
  method Send(msg: seq<char>) returns (packets: seq<Packet>)
    ensures |packets| == PacketCount(|msg|)
    ensures forall i | 0 <= i < |packets| :: packets[i] == PacketOf(msg, i)
  {
    var n := |msg| / PACK_DATA + 1;
    var lastLen := |msg| % PACK_DATA;
    packets := [];
    for i := 0 to n
      invariant |packets| == i && forall j | 0 <= j < i :: packets[j] == PacketOf(msg, j)
    {
      var sz := if i == n - 1 then lastLen else PACK_DATA;
      assert sz == PacketLen(|msg|, i);
      packets := packets + [Packet(n, i, |msg|, msg[i * PACK_DATA..i * PACK_DATA + sz])];
    }
  }

  function Count(bs: seq<bool>): nat {
    if bs == [] then 0 else Count(bs[..|bs| - 1]) + if bs[|bs| - 1] then 1 else 0
  }

  lemma {:induction false} CountSet(bs: seq<bool>, i: nat)
    requires i < |bs| && !bs[i]
    ensures Count(bs[i := true]) == Count(bs) + 1
  {
    var n := |bs| - 1;
    if i < n {
      assert bs[i := true][..n] == bs[..n][i := true];
      CountSet(bs[..n], i);
    } else {
      assert bs[i := true][..n] == bs[..n];
    }
  }

  /** A full count means that every flag is set. */
  lemma {:induction false} CountFull(bs: seq<bool>)
    ensures Count(bs) <= |bs|
    ensures Count(bs) == |bs| <==> forall i | 0 <= i < |bs| :: bs[i]
  {
    if bs != [] {
      CountFull(bs[..|bs| - 1]);
    }
  }

  lemma {:induction false} CountNone(n: nat)
    ensures Count(seq(n, _ => false)) == 0
  {
    if n > 0 {
      CountNone(n - 1);
      assert seq(n, _ => false)[..n - 1] == seq(n - 1, _ => false);
    }
  }

  /** The bytes of packet `id` are in place. */
  ghost predicate InPlace(data: seq<char>, msg: seq<char>, id: nat)
    requires |data| == |msg| && id < PacketCount(|msg|)
  {
    data[id * PACK_DATA..id * PACK_DATA + PacketLen(|msg|, id)] == msg[id * PACK_DATA..id * PACK_DATA + PacketLen(|msg|, id)]
  }

  lemma {:induction false} Whole(data: seq<char>, msg: seq<char>)
    requires |data| == |msg| && forall id | 0 <= id < PacketCount(|msg|) :: InPlace(data, msg, id)
    ensures data == msg
  {
    forall k | 0 <= k < |msg| ensures data[k] == msg[k] {
      var id := k / PACK_DATA;
      assert InPlace(data, msg, id);
      var lo, hi := id * PACK_DATA, id * PACK_DATA + PacketLen(|msg|, id);
      assert data[lo..hi][k - lo] == msg[lo..hi][k - lo];
    }
  }

  /** memcpy into a buffer. */
  method Copy(a: array<char>, off: nat, bytes: seq<char>)
    requires off + |bytes| <= a.Length
    modifies a
    ensures a[off..off + |bytes|] == bytes
    ensures forall k | 0 <= k < a.Length && !(off <= k < off + |bytes|) :: a[k] == old(a[k])
  {
    for j := 0 to |bytes|
      invariant forall k | off <= k < off + j :: a[k] == bytes[k - off]
      invariant forall k | 0 <= k < a.Length && !(off <= k < off + j) :: a[k] == old(a[k])
    {
      a[off + j] := bytes[j];
    }
  }

  /** The collector for one sender. */
  class Receiver {
    var data: array?<char>
    var received: seq<bool>
    var totalLen: nat
    var totalPacket: nat
    var receivedCount: nat

    constructor ()
      ensures data == null && receivedCount == 0
    {
      data, received, totalLen, totalPacket, receivedCount := null, [], 0, 0, 0;
    }

    /** Some packets of `msg` have arrived, and at least one is missing. */
    ghost predicate Collecting(msg: seq<char>)
      reads this, data
    {
      if data == null then receivedCount == 0
      else
        && data.Length == |msg| && totalLen == |msg| && totalPacket == |received| == PacketCount(|msg|)
        && receivedCount == Count(received) < totalPacket
        && forall id | 0 <= id < totalPacket && received[id] :: InPlace(data[..], msg, id)
    }

    /** The packets that have arrived. */
    ghost function Arrived(): set<nat>
      reads this
    {
      if data == null then {} else set id: nat | id < |received| && received[id]
    }

    /** The packet belongs to `msg`, or it was seen before and only its header matters. */
    ghost predicate Suits(p: Packet, msg: seq<char>, id: nat)
      reads this
    {
      && id < PacketCount(|msg|) && p.packetNum == PacketCount(|msg|) && p.packetId == id && p.totalLen == |msg|
      && (id in Arrived() || p == PacketOf(msg, id))
    }

    /** The first packet of a message prepares the buffer. */
    method Prepare(p: Packet, ghost msg: seq<char>, ghost id: nat)
      requires Collecting(msg) && Suits(p, msg, id)
      modifies this
      ensures Collecting(msg) && data != null && Arrived() == old(Arrived())
      ensures old(data) == null ==> fresh(data)
      ensures old(data) != null ==> data == old(data)
    {
      if data == null {
        totalLen, totalPacket := p.totalLen, p.packetNum;
        received := seq(p.packetNum, _ => false);
        CountNone(p.packetNum);
        data := new char[p.totalLen];
        assert Arrived() == {};
      }
    }

    /** Copy a packet that was not seen yet. */
    method Store(p: Packet, ghost msg: seq<char>, id: nat)
      requires data != null && Collecting(msg) && id < PacketCount(|msg|) && p == PacketOf(msg, id) && !received[id]
      modifies this`received, this`receivedCount, data
      ensures |received| == |old(received)| && received == old(received)[id := true]
      ensures receivedCount == Count(received)
      ensures forall i | 0 <= i < |received| && received[i] :: InPlace(data[..], msg, i)
    {
      ghost var was := data[..];
      var off := id * PACK_DATA;
      Copy(data, off, p.data);
      CountSet(received, id);
      received, receivedCount := received[id := true], receivedCount + 1;
      forall i | 0 <= i < |received| && received[i] ensures InPlace(data[..], msg, i) {
        if i == id {
          assert data[..][off..off + |p.data|] == data[off..off + |p.data|];
        } else {
          assert InPlace(was, msg, i);
          Apart(was, data[..], msg, i, id);
        }
      }
    }

    /** All packets seen so far are in place; perhaps none is missing. */
    ghost predicate Filled(msg: seq<char>)
      reads this, data
    {
      && data != null && data.Length == |msg| && totalLen == |msg| && totalPacket == |received| == PacketCount(|msg|)
      && receivedCount == Count(received)
      && forall id | 0 <= id < totalPacket && received[id] :: InPlace(data[..], msg, id)
    }

    /** Take one packet in; a packet seen before changes nothing. */
    method Absorb(p: Packet, ghost msg: seq<char>, ghost id: nat)
      requires Collecting(msg) && Suits(p, msg, id)
      modifies this, data
      ensures Filled(msg) && Arrived() == old(Arrived()) + {id} && (fresh(data) || data == old(data))
    {
      Prepare(p, msg, id);
      ghost var seen := Arrived();
      if !received[p.packetId] {
        Store(p, msg, p.packetId);
      }
      assert Arrived() == seen + {id};
    }

    /** RdmaRecv for one packet of `msg`: the message is returned exactly when
        the last missing packet arrives. */
    method Recv(p: Packet, ghost msg: seq<char>, ghost id: nat) returns (out: Option<seq<char>>)
      requires Collecting(msg) && Suits(p, msg, id)
      modifies this, data
      ensures data != null ==> fresh(data) || data == old(data)
      ensures out.Some? <==> Complete(old(Arrived()) + {id}, PacketCount(|msg|))
      ensures out.Some? ==> out.value == msg && data == null && receivedCount == 0
      ensures out.None? ==> Collecting(msg) && Arrived() == old(Arrived()) + {id}
    {
      Absorb(p, msg, id);
      CountFull(received);
      FullIsAll(received, Arrived());
      if receivedCount == totalPacket {
        Whole(data[..], msg);
        out := Some(data[..]);
        data, totalLen, receivedCount := null, 0, 0;
      } else {
        out := None;
      }
    }
  }

  ghost predicate Complete(seen: set<nat>, n: nat) {
    forall id: nat | id < n :: id in seen
  }

  lemma {:induction false} FullIsAll(received: seq<bool>, seen: set<nat>)
    requires seen == set id: nat | id < |received| && received[id]
    ensures Count(received) == |received| <==> Complete(seen, |received|)
  {
    CountFull(received);
    if Complete(seen, |received|) {
      forall i: nat | i < |received| ensures received[i] {
        assert i in seen;
      }
    }
  }

  ghost function Ids(order: seq<nat>): set<nat> {
    set i | 0 <= i < |order| :: order[i]
  }

  lemma {:induction false} IdsSnoc(order: seq<nat>, k: nat)
    requires k < |order|
    ensures Ids(order[..k + 1]) == Ids(order[..k]) + {order[k]}
  {
  }

  /** For every length and every order of delivery, with any duplicates: the
      receiver returns the sent bytes, and exactly at the delivery after which
      every packet has been seen. */
  method Transfer(msg: seq<char>, order: seq<nat>) returns (out: Option<seq<char>>, used: nat)
    requires forall i | 0 <= i < |order| :: order[i] < PacketCount(|msg|)
    ensures out.Some? <==> Complete(Ids(order), PacketCount(|msg|))
    ensures out.Some? ==> out.value == msg && 0 < used <= |order|
    ensures out.Some? ==> Complete(Ids(order[..used]), PacketCount(|msg|)) && !Complete(Ids(order[..used - 1]), PacketCount(|msg|))
  {
    var packets := Send(msg);
    var r := new Receiver();
    used := 0;
    out := None;
    assert !Complete(Ids(order[..0]), PacketCount(|msg|)) by {
      assert 0 !in Ids(order[..0]);
    }
    while used < |order|
      invariant used <= |order| && out.None? && r.Collecting(msg) && r.Arrived() == Ids(order[..used])
      invariant !Complete(Ids(order[..used]), PacketCount(|msg|))
      invariant r.data != null ==> fresh(r.data)
    {
      IdsSnoc(order, used);
      out := r.Recv(packets[order[used]], msg, order[used]);
      used := used + 1;
      if out.Some? {
        MoreIds(order, used, PacketCount(|msg|));
        return;
      }
    }
    assert order[..used] == order;
  }

  lemma {:induction false} MoreIds(order: seq<nat>, k: nat, n: nat)
    requires k <= |order| && Complete(Ids(order[..k]), n)
    ensures Complete(Ids(order), n)
  {
    forall id: nat | id < n ensures id in Ids(order) {
      assert id in Ids(order[..k]);
      var i :| 0 <= i < k && order[..k][i] == id;
      assert order[i] == id;
    }
  }

  // ---------- packets that come late ----------

  /** The packets of `late` from one message, the others from another of the same length. */
  ghost function Mixed(first: seq<char>, second: seq<char>, late: set<nat>): (m: seq<char>)
    requires |first| == |second|
    ensures |m| == |first|
  {
    seq(|first|, k requires 0 <= k < |first| => if k / PACK_DATA in late then first[k] else second[k])
  }

  lemma {:induction false} MixedPacket(first: seq<char>, second: seq<char>, late: set<nat>, id: nat)
    requires |first| == |second| && id < PacketCount(|first|)
    ensures PacketOf(Mixed(first, second, late), id) == if id in late then PacketOf(first, id) else PacketOf(second, id)
  {
    var lo, hi := id * PACK_DATA, id * PACK_DATA + PacketLen(|first|, id);
    forall k | lo <= k < hi ensures k / PACK_DATA == id {
    }
  }

  /** The two messages have the same bytes in every late packet. */
  ghost predicate Agree(first: seq<char>, second: seq<char>, late: set<nat>)
    requires |first| == |second|
  {
    forall id: nat | id in late && id < PacketCount(|first|) :: PacketOf(first, id) == PacketOf(second, id)
  }

  lemma {:induction false} MixedIsSecond(first: seq<char>, second: seq<char>, late: set<nat>)
    requires |first| == |second|
    ensures Mixed(first, second, late) == second <==> Agree(first, second, late)
  {
    var m := Mixed(first, second, late);
    if m == second {
      forall id: nat | id in late && id < PacketCount(|first|) ensures PacketOf(first, id) == PacketOf(second, id) {
        MixedPacket(first, second, late, id);
      }
    } else if Agree(first, second, late) {
      forall id | 0 <= id < PacketCount(|second|) ensures InPlace(m, second, id) {
        MixedPacket(first, second, late, id);
        assert PacketOf(m, id).data == PacketOf(second, id).data;
      }
      Whole(m, second);
    }
  }

  /** Deliver packets of `sent` to a receiver that collects `msg`, until it returns something. */
  method DeliverAll(r: Receiver, packets: seq<Packet>, order: seq<nat>, ghost sent: seq<char>, ghost msg: seq<char>)
    returns (out: Option<seq<char>>)
    requires r.Collecting(msg) && |sent| == |msg| && |packets| == PacketCount(|msg|)
    requires !Complete(r.Arrived(), PacketCount(|msg|))
    requires forall id | 0 <= id < |packets| :: packets[id] == PacketOf(sent, id)
    requires forall i | 0 <= i < |order| :: order[i] < PacketCount(|msg|)
    requires forall id: nat | id < PacketCount(|msg|) && id in Ids(order) :: id in r.Arrived() || PacketOf(sent, id) == PacketOf(msg, id)
    modifies r, r.data
    ensures out.Some? <==> Complete(old(r.Arrived()) + Ids(order), PacketCount(|msg|))
    ensures out.Some? ==> out.value == msg && r.data == null && r.receivedCount == 0
    ensures out.None? ==> r.Collecting(msg) && r.Arrived() == old(r.Arrived()) + Ids(order)
    ensures r.data != null ==> fresh(r.data) || r.data == old(r.data)
  {
    out := None;
    ghost var before := r.Arrived();
    assert before + Ids(order[..0]) == before;
    for k := 0 to |order|
      invariant out.None? && r.Collecting(msg) && r.Arrived() == before + Ids(order[..k])
      invariant !Complete(r.Arrived(), PacketCount(|msg|))
      invariant r.data != null ==> fresh(r.data) || r.data == old(r.data)
    {
      IdsSnoc(order, k);
      assert order[k] in Ids(order);
      out := r.Recv(packets[order[k]], msg, order[k]);
      assert before + Ids(order[..k]) + {order[k]} == before + Ids(order[..k + 1]);
      if out.Some? {
        AlsoMore(before, order, k + 1, PacketCount(|msg|));
        return;
      }
    }
    assert order[..|order|] == order;
  }

  lemma {:induction false} AlsoMore(before: set<nat>, order: seq<nat>, k: nat, n: nat)
    requires k <= |order| && Complete(before + Ids(order[..k]), n)
    ensures Complete(before + Ids(order), n)
  {
    forall id: nat | id < n ensures id in before + Ids(order) {
      assert id in before + Ids(order[..k]);
      if id !in before {
        var i :| 0 <= i < k && order[..k][i] == id;
        assert order[i] == id;
      }
    }
  }

  /** Two messages of the same length from one sender.  The first one has been
      returned; then some of its packets, not all, come once more, and after
      them the packets of the second one.  The second one is returned intact if
      and only if the two agree in every packet that came late. */
  method TwoMessages(first: seq<char>, second: seq<char>, before: seq<nat>, late: seq<nat>, order: seq<nat>)
    returns (one: Option<seq<char>>, two: Option<seq<char>>)
    requires |first| == |second|
    requires forall i | 0 <= i < |before| :: before[i] < PacketCount(|first|)
    requires forall i | 0 <= i < |late| :: late[i] < PacketCount(|first|)
    requires forall i | 0 <= i < |order| :: order[i] < PacketCount(|first|)
    requires Complete(Ids(before), PacketCount(|first|))
    requires !Complete(Ids(late), PacketCount(|first|)) && Complete(Ids(order), PacketCount(|first|))
    ensures one == Some(first)
    ensures two == Some(Mixed(first, second, Ids(late)))
    ensures two == Some(second) <==> Agree(first, second, Ids(late))
  {
    var again := Send(first);
    var packets := Send(second);
    var r := new Receiver();
    assert !Complete({}, PacketCount(|first|)) by {
      assert 0 !in {};
    }
    assert {} + Ids(before) == Ids(before);
    one := DeliverAll(r, again, before, first, first);
    ghost var msg := Mixed(first, second, Ids(late));
    forall id: nat | id < PacketCount(|first|)
      ensures PacketOf(msg, id) == if id in Ids(late) then PacketOf(first, id) else PacketOf(second, id)
    {
      MixedPacket(first, second, Ids(late), id);
    }
    assert {} + Ids(late) == Ids(late);
    two := DeliverAll(r, again, late, first, msg);
    assert Complete(Ids(late) + Ids(order), PacketCount(|first|));
    two := DeliverAll(r, packets, order, second, msg);
    MixedIsSecond(first, second, Ids(late));
  }

  /** Writing one packet leaves the bytes of another alone. */
  lemma {:induction false} Apart(was: seq<char>, now: seq<char>, msg: seq<char>, i: nat, id: nat)
    requires |was| == |now| == |msg| && i < PacketCount(|msg|) && id < PacketCount(|msg|) && i != id
    requires InPlace(was, msg, i)
    requires forall k | 0 <= k < |now| && !(id * PACK_DATA <= k < id * PACK_DATA + PacketLen(|msg|, id)) :: now[k] == was[k]
    ensures InPlace(now, msg, i)
  {
  }
}
