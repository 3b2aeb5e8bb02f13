/** Splitting routed data into messages of bounded size. */
module Dispatch {
  import opened DataPairs

  /** What is sent: a value with its history, or a history without values. */
  datatype Item = With(hist: Hist, value: Value) | Bare(hist: Hist)

  /** Sizes in bytes; a history counts with the length field stored beside it,
      a value with its type byte. */
  datatype Limits = Limits(hist: Hist -> nat, content: Value -> nat, max: nat) {
    function value(v: Value): nat {
      1 + content(v)
    }
  }

  const EMPTY_SIZE: nat := 8

  // ---------- contents ----------

  function ItemsOf(h: Hist, vs: seq<Value>): (items: seq<Item>)
    ensures |items| == |vs|
  {
    seq(|vs|, i requires 0 <= i < |vs| => With(h, vs[i]))
  }

  function Items(p: Pair): seq<Item> {
    if p.values == [] then [Bare(p.hist)] else ItemsOf(p.hist, p.values)
  }

  function AllItems(ps: seq<Pair>): seq<Item> {
    if ps == [] then [] else AllItems(ps[..|ps| - 1]) + Items(ps[|ps| - 1])
  }

  lemma {:induction false} AllItemsSnoc(ps: seq<Pair>, p: Pair)
    ensures AllItems(ps + [p]) == AllItems(ps) + Items(p)
  {
  }

  lemma {:induction false} Assoc<T>(a: seq<T>, b: seq<T>, c: seq<T>)
    ensures a + b + c == a + (b + c)
  {
  }

  lemma {:induction false} Exchange<T>(a: seq<T>, b: seq<T>, c: seq<T>, d: seq<T>, e: seq<T>)
    requires a + b == c + d
    ensures a + (b + e) == c + (d + e)
  {
    Assoc(a, b, e);
    Assoc(c, d, e);
  }

  lemma {:induction false} AllItemsAppend(a: seq<Pair>, b: seq<Pair>)
    ensures AllItems(a + b) == AllItems(a) + AllItems(b)
  {
    if b == [] {
      assert a + b == a;
    } else {
      var c, p := b[..|b| - 1], b[|b| - 1];
      assert b == c + [p];
      AllItemsAppend(a, c);
      Assoc(a, c, [p]);
      AllItemsSnoc(a + c, p);
      AllItemsSnoc(c, p);
      Assoc(AllItems(a), AllItems(c), Items(p));
    }
  }

  lemma {:induction false} AllItemsCons(p: Pair, ps: seq<Pair>)
    ensures AllItems([p] + ps) == Items(p) + AllItems(ps)
  {
    AllItemsAppend([p], ps);
    assert [p][..0] == [];
  }

  lemma {:induction false} KeepWhole(had: seq<Item>, p: Pair, tail: seq<Pair>, now: seq<Item>)
    requires now == had + Items(p)
    ensures now + AllItems(tail) == had + AllItems([p] + tail)
  {
    AllItemsCons(p, tail);
    Assoc(had, Items(p), AllItems(tail));
  }

  lemma {:induction false} KeepPart(had: seq<Item>, p: Pair, part: Pair, tail: seq<Pair>, now: seq<Item>)
    requires now + Items(part) == had + Items(p)
    ensures now + AllItems([part] + tail) == had + AllItems([p] + tail)
  {
    AllItemsCons(p, tail);
    AllItemsCons(part, tail);
    Exchange(now, Items(part), had, Items(p), AllItems(tail));
  }

  lemma {:induction false} ItemsSplit(h: Hist, vs: seq<Value>, k: nat)
    requires k <= |vs|
    ensures ItemsOf(h, vs) == ItemsOf(h, vs[..k]) + ItemsOf(h, vs[k..])
  {
  }

  // ---------- sizes ----------

  function Weigh(lim: Limits, vs: seq<Value>): nat {
    if vs == [] then 0 else Weigh(lim, vs[..|vs| - 1]) + lim.value(vs[|vs| - 1])
  }

  lemma {:induction false} WeighFirst(lim: Limits, vs: seq<Value>, k: nat)
    requires 0 < k <= |vs|
    ensures Weigh(lim, vs[..k]) >= lim.value(vs[0])
  {
    assert vs[..k][..k - 1] == vs[..k - 1];
    if k > 1 {
      WeighFirst(lim, vs, k - 1);
    }
  }

  function Weight(lim: Limits, ps: seq<Pair>): nat {
    if ps == [] then 0
    else Weight(lim, ps[..|ps| - 1]) + lim.hist(ps[|ps| - 1].hist) + Weigh(lim, ps[|ps| - 1].values)
  }

  lemma {:induction false} WeightSnoc(lim: Limits, ps: seq<Pair>, p: Pair)
    ensures Weight(lim, ps + [p]) == Weight(lim, ps) + lim.hist(p.hist) + Weigh(lim, p.values)
  {
  }

  /** A single item fits into an empty message. */
  predicate Fits(lim: Limits, x: Item) {
    match x
    case Bare(_) => true
    case With(h, v) => EMPTY_SIZE + lim.hist(h) < lim.max && EMPTY_SIZE + lim.hist(h) + lim.value(v) <= lim.max
  }

  /** Values and bare histories never share a message. */
  ghost predicate Uniform(ps: seq<Pair>, valued: bool) {
    forall i | 0 <= i < |ps| :: (ps[i].values != []) == valued
  }

  lemma {:induction false} UniformSnoc(ps: seq<Pair>, p: Pair, valued: bool)
    requires (p.values != []) == valued
    ensures Uniform(ps, valued) ==> Uniform(ps + [p], valued)
  {
  }

  lemma {:induction false} UniformTail(ps: seq<Pair>, part: Pair, valued: bool)
    requires ps != [] && Uniform(ps, valued)
    ensures (ps[0].values != []) == valued && ps == [ps[0]] + ps[1..] && Uniform(ps[1..], valued)
    ensures (part.values != []) == valued ==> Uniform([part] + ps[1..], valued)
  {
  }

  /** Not one more value of the pair goes in; its history is to be added too,
      unless part of the pair is in already. */
  ghost predicate NoRoom(lim: Limits, size: nat, split: bool, p: Pair) {
    p.values != [] && size + (if split then 0 else lim.hist(p.hist)) + lim.value(p.values[0]) > lim.max
  }

  /** Nothing of what is left goes in. */
  ghost predicate Full(lim: Limits, size: nat, data: seq<Pair>, rest: seq<Pair>) {
    || rest == [] || NoRoom(lim, size, false, rest[0])
    || (data != [] && data[|data| - 1].hist == rest[0].hist && NoRoom(lim, size, true, rest[0]))
  }

  class Message {
    const lim: Limits
    var data: seq<Pair>
    var size: nat

    ghost predicate Valid()
      reads this
    {
      size == EMPTY_SIZE + Weight(lim, data)
    }

    constructor (lim: Limits)
      ensures Valid() && data == [] && this.lim == lim && size == EMPTY_SIZE
    {
      this.lim, data, size := lim, [], EMPTY_SIZE;
    }

    /** How many values go in beside the history. */
    method Room(h: Hist, vs: seq<Value>, space: int) returns (k: nat, inSize: nat)
      requires lim.hist(h) < space
      ensures k <= |vs| && inSize == lim.hist(h) + Weigh(lim, vs[..k]) && inSize <= space
      ensures k < |vs| ==> inSize + lim.value(vs[k]) > space
    {
      k, inSize := 0, lim.hist(h);
      while k < |vs| && lim.value(vs[k]) + inSize <= space
        invariant k <= |vs| && inSize == lim.hist(h) + Weigh(lim, vs[..k]) && inSize <= space
      {
        assert vs[..k + 1][..k] == vs[..k];
        inSize := inSize + lim.value(vs[k]);
        k := k + 1;
      }
    }

    /** Put a pair of known size in. */
    method Push(p: Pair, inSize: nat)
      requires Valid() && inSize == lim.hist(p.hist) + Weigh(lim, p.values)
      modifies `data, `size
      ensures Valid() && data == old(data) + [p] && AllItems(data) == old(AllItems(data)) + Items(p)
      ensures size == old(size) + inSize
    {
      AllItemsSnoc(data, p);
      WeightSnoc(lim, data, p);
      data, size := data + [p], size + inSize;
    }

    /** InsertData for one pair: as many values as fit, in order; a history
        without values always goes in. */
    method InsertPair(p: Pair, ghost valued: bool) returns (done: bool, rest: Pair)
      requires Valid() && (p.values != []) == valued && (p.values != [] ==> size <= lim.max)
      modifies `data, `size
      ensures Valid() && (p.values != [] ==> size <= lim.max) && |data| >= |old(data)|
      ensures done ==> AllItems(data) == old(AllItems(data)) + Items(p)
      ensures !done ==> AllItems(data) + Items(rest) == old(AllItems(data)) + Items(p)
      ensures !done ==> p.values != [] && NoRoom(lim, size, data != old(data), rest)
      ensures !done ==> if data == old(data) then rest == p else data != [] && data[|data| - 1].hist == rest.hist
      ensures Uniform(old(data), valued) ==> Uniform(data, valued)
      ensures old(data) == [] && Fits(lim, Items(p)[0]) ==> data != []
      ensures old(data) == [] && !Fits(lim, Items(p)[0]) ==> !done && data == []
    {
      assert p.values != [] ==> Items(p)[0] == With(p.hist, p.values[0]);
      if p.values == [] {
        UniformSnoc(data, p, valued);
        Push(p, lim.hist(p.hist));
        return true, p;
      }
      var space := lim.max - size;
      if lim.hist(p.hist) >= space {
        return false, p;
      }
      var k, inSize := Room(p.hist, p.values, space);
      if k == 0 {
        return false, p;
      }
      WeighFirst(lim, p.values, k);
      done, rest := PushPart(p, k, inSize);
    }

    /** Put the first values of a pair in. */
    method PushPart(p: Pair, k: nat, inSize: nat) returns (done: bool, rest: Pair)
      requires Valid() && 0 < k <= |p.values| && inSize == lim.hist(p.hist) + Weigh(lim, p.values[..k])
      modifies `data, `size
      ensures Valid() && size == old(size) + inSize && |data| == |old(data)| + 1
      ensures Uniform(old(data), true) ==> Uniform(data, true)
      ensures done ==> AllItems(data) == old(AllItems(data)) + Items(p)
      ensures !done ==> k < |p.values| && rest == Pair(p.hist, p.values[k..]) && data[|data| - 1].hist == p.hist
      ensures !done ==> AllItems(data) + Items(rest) == old(AllItems(data)) + Items(p)
    {
      rest := Pair(p.hist, p.values[k..]);
      UniformSnoc(data, Pair(p.hist, p.values[..k]), true);
      Push(Pair(p.hist, p.values[..k]), inSize);
      ItemsSplit(p.hist, p.values, k);
      done := k == |p.values|;
      if !done {
        Assoc(old(AllItems(data)), ItemsOf(p.hist, p.values[..k]), ItemsOf(p.hist, rest.values));
      } else {
        assert p.values[..k] == p.values;
      }
    }
  
    /** Insert the first pair of a list and return what is left of the list. */
    method InsertFirst(ps: seq<Pair>, ghost valued: bool) returns (done: bool, rest: seq<Pair>)
      requires Valid() && ps != [] && Uniform(ps, valued) && (valued ==> size <= lim.max)
      modifies `data, `size
      ensures Valid() && Uniform(rest, valued) && (valued ==> size <= lim.max) && |data| >= |old(data)|
      ensures AllItems(data) + AllItems(rest) == old(AllItems(data)) + AllItems(ps)
      ensures Uniform(old(data), valued) ==> Uniform(data, valued)
      ensures if done then |rest| < |ps| else valued && rest != [] && Full(lim, size, data, rest)
      ensures !done && data == [] ==> rest == ps
      ensures old(data) == [] && Fits(lim, Items(ps[0])[0]) ==> data != []
      ensures old(data) == [] && !Fits(lim, Items(ps[0])[0]) ==> !done && data == []
    {
      ghost var had := AllItems(data);
      UniformTail(ps, ps[0], valued);
      var part;
      done, part := InsertPair(ps[0], valued);
      UniformTail(ps, part, valued);
      if done {
        rest := ps[1..];
        KeepWhole(had, ps[0], rest, AllItems(data));
      } else {
        rest := [part] + ps[1..];
        KeepPart(had, ps[0], part, ps[1..], AllItems(data));
      }
    }

    /** InsertData for a list: whole pairs from the front, then the part of one
        pair that fits, until not one more value fits.  A fresh message takes
        something exactly when the first item fits. */
    method InsertAll(ps: seq<Pair>, ghost valued: bool) returns (rest: seq<Pair>)
      requires Valid() && ps != [] && Uniform(ps, valued) && (valued ==> size <= lim.max)
      modifies `data, `size
      ensures Valid() && Uniform(rest, valued) && (valued ==> size <= lim.max) && (!valued ==> rest == [])
      ensures AllItems(data) + AllItems(rest) == old(AllItems(data)) + AllItems(ps)
      ensures Uniform(old(data), valued) ==> Uniform(data, valued)
      ensures Full(lim, size, data, rest)
      ensures old(data) == [] && Fits(lim, Items(ps[0])[0]) ==> data != []
      ensures old(data) == [] && !Fits(lim, Items(ps[0])[0]) ==> rest == ps && data == []
    {
      var done;
      done, rest := InsertFirst(ps, valued);
      if done {
        rest := InsertMore(rest, valued);
      }
    }

    /** The rest of the loop, once the first pair is in. */
    method InsertMore(ps: seq<Pair>, ghost valued: bool) returns (rest: seq<Pair>)
      requires Valid() && Uniform(ps, valued) && (valued ==> size <= lim.max)
      modifies `data, `size
      ensures Valid() && Uniform(rest, valued) && (valued ==> size <= lim.max) && (!valued ==> rest == [])
      ensures AllItems(data) + AllItems(rest) == old(AllItems(data)) + AllItems(ps) && |data| >= |old(data)|
      ensures Uniform(old(data), valued) ==> Uniform(data, valued)
      ensures Full(lim, size, data, rest)
      decreases |ps|
    {
      if ps == [] {
        return [];
      }
      var done;
      done, rest := InsertFirst(ps, valued);
      if done {
        rest := InsertMore(rest, valued);
      }
    }
  }

  // ---------- a list of messages ----------

  function AllSent(msgs: seq<seq<Pair>>): seq<Item> {
    if msgs == [] then [] else AllSent(msgs[..|msgs| - 1]) + AllItems(msgs[|msgs| - 1])
  }

  ghost predicate AllFit(lim: Limits, items: seq<Item>) {
    forall i | 0 <= i < |items| :: Fits(lim, items[i])
  }

  lemma {:induction false} FirstItem(ps: seq<Pair>)
    requires ps != []
    ensures |AllItems(ps)| > 0 && AllItems(ps)[0] == Items(ps[0])[0]
  {
    assert ps == [ps[0]] + ps[1..];
    AllItemsCons(ps[0], ps[1..]);
  }

  ghost predicate Bounded(lim: Limits, msgs: seq<seq<Pair>>) {
    forall i | 0 <= i < |msgs| :: EMPTY_SIZE + Weight(lim, msgs[i]) <= lim.max
  }

  lemma {:induction false} WeighOne(lim: Limits, vs: seq<Value>, k: nat)
    requires k < |vs|
    ensures Weigh(lim, vs) >= lim.value(vs[k])
  {
    if k < |vs| - 1 {
      WeighOne(lim, vs[..|vs| - 1], k);
    }
  }

  lemma {:induction false} PairFits(lim: Limits, p: Pair)
    requires p.values != [] && EMPTY_SIZE + lim.hist(p.hist) + Weigh(lim, p.values) <= lim.max
    ensures AllFit(lim, Items(p))
  {
    forall k | 0 <= k < |p.values| ensures Fits(lim, With(p.hist, p.values[k])) {
      WeighOne(lim, p.values, k);
    }
  }

  lemma {:induction false} FitBoth(lim: Limits, a: seq<Item>, b: seq<Item>)
    ensures AllFit(lim, a + b) <==> AllFit(lim, a) && AllFit(lim, b)
  {
    forall i | 0 <= i < |a| ensures (a + b)[i] == a[i] {
    }
    forall i | 0 <= i < |b| ensures (a + b)[|a| + i] == b[i] {
    }
  }

  /** Whatever is in a message of bounded size fits on its own. */
  lemma {:induction false} SentFits(lim: Limits, ps: seq<Pair>, valued: bool)
    requires Uniform(ps, valued) && (valued ==> EMPTY_SIZE + Weight(lim, ps) <= lim.max)
    ensures AllFit(lim, AllItems(ps))
    decreases |ps|
  {
    if ps != [] {
      var init, p := ps[..|ps| - 1], ps[|ps| - 1];
      SentFits(lim, init, valued);
      if valued {
        PairFits(lim, p);
      }
      FitBoth(lim, AllItems(init), Items(p));
    }
  }

  /** One turn of the do-while loop of DispatchData: `m` is a fresh message
      filled from the front of `was`, and `rest` is left. */
  ghost predicate Turn(lim: Limits, was: seq<Pair>, m: seq<Pair>, rest: seq<Pair>, valued: bool)
    requires was != []
  {
    && AllItems(m) + AllItems(rest) == AllItems(was) && Uniform(rest, valued) && AllFit(lim, AllItems(m))
    && (valued ==> EMPTY_SIZE + Weight(lim, m) <= lim.max) && Full(lim, EMPTY_SIZE + Weight(lim, m), m, rest)
    && if Fits(lim, Items(was[0])[0]) then m != [] && |AllItems(rest)| < |AllItems(was)| else m == [] && rest == was
  }

  method FillOne(lim: Limits, ps: seq<Pair>, ghost valued: bool) returns (m: seq<Pair>, rest: seq<Pair>)
    requires ps != [] && Uniform(ps, valued) && (valued ==> EMPTY_SIZE <= lim.max)
    ensures Turn(lim, ps, m, rest, valued)
  {
    FirstItem(ps);
    var msg := new Message(lim);
    rest := msg.InsertAll(ps, valued);
    m := msg.data;
    assert AllItems([]) + AllItems(ps) == AllItems(ps);
    SentFits(lim, m, valued);
    if m != [] {
      FirstItem(m);
    }
  }

  /** Every item of the list fits, pair by pair. */
  ghost predicate Sendable(lim: Limits, ps: seq<Pair>) {
    ps == [] || (Sendable(lim, ps[..|ps| - 1]) && AllFit(lim, Items(ps[|ps| - 1])))
  }

  lemma {:induction false} SendableFits(lim: Limits, ps: seq<Pair>)
    ensures Sendable(lim, ps) <==> AllFit(lim, AllItems(ps))
    decreases |ps|
  {
    if ps != [] {
      SendableFits(lim, ps[..|ps| - 1]);
      FitBoth(lim, AllItems(ps[..|ps| - 1]), Items(ps[|ps| - 1]));
    }
  }

  ghost function Count(ps: seq<Pair>): nat {
    if ps == [] then 0 else Count(ps[..|ps| - 1]) + |Items(ps[|ps| - 1])|
  }

  lemma {:induction false} CountItems(ps: seq<Pair>)
    ensures Count(ps) == |AllItems(ps)|
    decreases |ps|
  {
    if ps != [] {
      CountItems(ps[..|ps| - 1]);
    }
  }

  /** A turn sends only what fits. */
  lemma {:induction false} TurnFits(lim: Limits, was: seq<Pair>, m: seq<Pair>, rest: seq<Pair>, valued: bool)
    requires was != [] && Turn(lim, was, m, rest, valued)
    ensures Sendable(lim, rest) <==> Sendable(lim, was)
    ensures Sendable(lim, was) ==> Count(rest) < Count(was)
  {
    CountItems(was);
    CountItems(rest);
    FitBoth(lim, AllItems(m), AllItems(rest));
    FirstItem(was);
    SendableFits(lim, was);
    SendableFits(lim, rest);
  }

  lemma {:induction false} TurnSends(lim: Limits, was: seq<Pair>, m: seq<Pair>, rest: seq<Pair>, valued: bool)
    requires was != [] && Turn(lim, was, m, rest, valued)
    ensures AllItems(m) + AllItems(rest) == AllItems(was) && (valued ==> EMPTY_SIZE + Weight(lim, m) <= lim.max)
  {
  }

  /** Turn after turn, as long as something is left: `lists[i]` is left after `i` turns. */
  ghost predicate Chain(lim: Limits, msgs: seq<seq<Pair>>, lists: seq<seq<Pair>>, valued: bool) {
    && |lists| == |msgs| + 1
    && forall i {:trigger msgs[i]} | 0 <= i < |msgs| :: lists[i] != [] && Turn(lim, lists[i], msgs[i], lists[i + 1], valued)
  }

  lemma {:induction false} ChainFits(lim: Limits, msgs: seq<seq<Pair>>, lists: seq<seq<Pair>>, valued: bool, i: nat)
    requires Chain(lim, msgs, lists, valued) && i < |msgs|
    ensures Sendable(lim, lists[i + 1]) <==> Sendable(lim, lists[i])
    ensures Sendable(lim, lists[i]) ==> Count(lists[i + 1]) < Count(lists[i])
  {
    TurnFits(lim, lists[i], msgs[i], lists[i + 1], valued);
  }

  lemma {:induction false} ChainSends(lim: Limits, msgs: seq<seq<Pair>>, lists: seq<seq<Pair>>, valued: bool, i: nat)
    requires Chain(lim, msgs, lists, valued) && i < |msgs|
    ensures AllItems(msgs[i]) + AllItems(lists[i + 1]) == AllItems(lists[i])
    ensures valued ==> EMPTY_SIZE + Weight(lim, msgs[i]) <= lim.max
  {
    TurnSends(lim, lists[i], msgs[i], lists[i + 1], valued);
  }

  lemma {:induction false} SnocAt<T>(s: seq<T>, x: T, i: nat)
    requires i <= |s|
    ensures (s + [x])[i] == if i < |s| then s[i] else x
  {
  }

  lemma {:induction false} ChainSnoc(lim: Limits, msgs: seq<seq<Pair>>, lists: seq<seq<Pair>>, valued: bool, m: seq<Pair>, rest: seq<Pair>)
    requires Chain(lim, msgs, lists, valued) && lists[|msgs|] != [] && Turn(lim, lists[|msgs|], m, rest, valued)
    ensures Chain(lim, msgs + [m], lists + [rest], valued)
  {
    var ms, ls := msgs + [m], lists + [rest];
    forall i | 0 <= i < |ms| ensures ls[i] != [] && Turn(lim, ls[i], ms[i], ls[i + 1], valued) {
      SnocAt(msgs, m, i);
      SnocAt(lists, rest, i);
      SnocAt(lists, rest, i + 1);
    }
  }

  /** An item that does not fit is never sent. */
  lemma {:induction false} StillUnfit(lim: Limits, msgs: seq<seq<Pair>>, lists: seq<seq<Pair>>, valued: bool, i: nat)
    requires Chain(lim, msgs, lists, valued) && i <= |msgs|
    ensures Sendable(lim, lists[i]) <==> Sendable(lim, lists[0])
    decreases i
  {
    if i > 0 {
      StillUnfit(lim, msgs, lists, valued, i - 1);
      ChainFits(lim, msgs, lists, valued, i - 1);
    }
  }

  /** With an item that does not fit, anywhere in the list, something is left
      after every number of turns: the loop never ends. */
  lemma {:induction false} NeverEnds(lim: Limits, msgs: seq<seq<Pair>>, lists: seq<seq<Pair>>, valued: bool, i: nat)
    requires Chain(lim, msgs, lists, valued) && !Sendable(lim, lists[0]) && i <= |msgs|
    ensures lists[i] != []
  {
    StillUnfit(lim, msgs, lists, valued, i);
  }

  const SmallLimits := Limits((h: Hist) => 8, (v: Value) => if v > 0 then v else 0, 30)

  /** A value of 100 bytes behind a small one, at a limit of 30: no number of turns sends it. */
  lemma {:induction false} Stuck(msgs: seq<seq<Pair>>, lists: seq<seq<Pair>>, i: nat)
    requires Chain(SmallLimits, msgs, lists, true) && lists[0] == [Pair(0, [1, 100])] && i <= |msgs|
    ensures lists[i] != []
  {
    assert lists[0][..0] == [] && AllItems(lists[0]) == ItemsOf(0, [1, 100]);
    assert !Fits(SmallLimits, AllItems(lists[0])[1]);
    SendableFits(SmallLimits, lists[0]);
    NeverEnds(SmallLimits, msgs, lists, true, i);
  }

  lemma {:induction false} ChainShrinks(lim: Limits, msgs: seq<seq<Pair>>, lists: seq<seq<Pair>>, valued: bool, i: nat)
    requires Chain(lim, msgs, lists, valued) && Sendable(lim, lists[0]) && i < |msgs|
    ensures Count(lists[i + 1]) < Count(lists[i])
  {
    StillUnfit(lim, msgs, lists, valued, i);
    ChainFits(lim, msgs, lists, valued, i);
  }

  /** When every item fits, every turn sends one at least, so there are at most as many turns as items. */
  lemma {:induction false} EndsInTime(lim: Limits, msgs: seq<seq<Pair>>, lists: seq<seq<Pair>>, valued: bool, i: nat)
    requires Chain(lim, msgs, lists, valued) && Sendable(lim, lists[0]) && i <= |msgs|
    ensures Count(lists[i]) + i <= Count(lists[0])
    decreases i
  {
    if i > 0 {
      EndsInTime(lim, msgs, lists, valued, i - 1);
      ChainShrinks(lim, msgs, lists, valued, i - 1);
    }
  }

  lemma {:induction false} ChainSent(lim: Limits, msgs: seq<seq<Pair>>, lists: seq<seq<Pair>>, valued: bool, i: nat)
    requires Chain(lim, msgs, lists, valued) && i <= |msgs|
    ensures AllSent(msgs[..i]) + AllItems(lists[i]) == AllItems(lists[0])
    decreases i
  {
    if i == 0 {
      SentNone(msgs, AllItems(lists[0]));
    } else {
      ChainSent(lim, msgs, lists, valued, i - 1);
      ChainSends(lim, msgs, lists, valued, i - 1);
      SentOne(msgs, i - 1, AllItems(lists[i]), AllItems(lists[i - 1]));
    }
  }

  lemma {:induction false} SentNone(msgs: seq<seq<Pair>>, more: seq<Item>)
    ensures AllSent(msgs[..0]) + more == more
  {
    assert msgs[..0] == [];
  }

  lemma {:induction false} SentOne(msgs: seq<seq<Pair>>, i: nat, rest: seq<Item>, was: seq<Item>)
    requires i < |msgs| && AllItems(msgs[i]) + rest == was
    ensures AllSent(msgs[..i + 1]) + rest == AllSent(msgs[..i]) + was
  {
    assert msgs[..i + 1][..i] == msgs[..i];
    Assoc(AllSent(msgs[..i]), AllItems(msgs[i]), rest);
  }

  lemma {:induction false} ChainBounded(lim: Limits, msgs: seq<seq<Pair>>, lists: seq<seq<Pair>>)
    requires Chain(lim, msgs, lists, true)
    ensures Bounded(lim, msgs)
  {
    forall i | 0 <= i < |msgs| ensures EMPTY_SIZE + Weight(lim, msgs[i]) <= lim.max {
      ChainSends(lim, msgs, lists, true, i);
    }
  }

  lemma {:induction false} AllChainSent(lim: Limits, msgs: seq<seq<Pair>>, lists: seq<seq<Pair>>, valued: bool)
    requires Chain(lim, msgs, lists, valued)
    ensures AllSent(msgs) + AllItems(lists[|msgs|]) == AllItems(lists[0]) && (valued ==> Bounded(lim, msgs))
  {
    ChainSent(lim, msgs, lists, valued, |msgs|);
    assert msgs[..|msgs|] == msgs;
    if valued {
      ChainBounded(lim, msgs, lists);
    }
  }

  lemma {:induction false} TurnUniform(lim: Limits, was: seq<Pair>, m: seq<Pair>, rest: seq<Pair>, valued: bool)
    requires was != [] && Turn(lim, was, m, rest, valued)
    ensures Uniform(rest, valued)
  {
  }

  /** The do-while loop of DispatchData for one receiver, stopped after `k`
      turns: it takes all of them unless it ends before, and it ends if and only
      if every item fits and it is given one turn an item. */
  method Turns(lim: Limits, ps: seq<Pair>, ghost valued: bool, k: nat)
    returns (msgs: seq<seq<Pair>>, rest: seq<Pair>, ghost lists: seq<seq<Pair>>)
    requires ps != [] && Uniform(ps, valued) && (valued ==> EMPTY_SIZE <= lim.max)
    ensures Chain(lim, msgs, lists, valued) && lists[0] == ps && lists[|msgs|] == rest
    ensures |msgs| <= k && (rest != [] ==> |msgs| == k)
    ensures AllSent(msgs) + AllItems(rest) == AllItems(ps) && (valued ==> Bounded(lim, msgs))
    ensures k >= |AllItems(ps)| ==> (rest == [] <==> AllFit(lim, AllItems(ps)))
    ensures !AllFit(lim, AllItems(ps)) ==> rest != []
  {
    msgs, rest, lists := [], ps, [ps];
    while |msgs| < k && rest != []
      invariant Chain(lim, msgs, lists, valued) && lists[0] == ps && lists[|msgs|] == rest && |msgs| <= k && Uniform(rest, valued)
      decreases k - |msgs|
    {
      var m, left := FillOne(lim, rest, valued);
      TurnUniform(lim, rest, m, left, valued);
      ChainSnoc(lim, msgs, lists, valued, m, left);
      msgs, lists, rest := msgs + [m], lists + [left], left;
    }
    AllChainSent(lim, msgs, lists, valued);
    SendableFits(lim, ps);
    if Sendable(lim, ps) {
      EndsInTime(lim, msgs, lists, valued, |msgs|);
      CountItems(ps);
      if rest != [] {
        FirstItem(rest);
        CountItems(rest);
      }
    } else {
      NeverEnds(lim, msgs, lists, valued, |msgs|);
    }
  }

  /** The loop itself, when it ends: it sends at least one message, and exactly
      the items, in order, in messages of bounded size. */
  method Pack(lim: Limits, ps: seq<Pair>, ghost valued: bool) returns (msgs: seq<seq<Pair>>)
    requires ps != [] && Uniform(ps, valued) && AllFit(lim, AllItems(ps))
    ensures msgs != [] && AllSent(msgs) == AllItems(ps)
    ensures valued ==> Bounded(lim, msgs)
  {
    EmptyFits(lim, ps, valued);
    SendableFits(lim, ps);
    var rest;
    msgs, rest := [], ps;
    ghost var lists := [ps];
    while rest != []
      invariant Chain(lim, msgs, lists, valued) && lists[0] == ps && lists[|msgs|] == rest && Uniform(rest, valued)
      invariant msgs == [] ==> rest != []
      decreases Count(ps) - |msgs|
    {
      EndsInTime(lim, msgs, lists, valued, |msgs|);
      FirstItem(rest);
      CountItems(rest);
      var m, left := FillOne(lim, rest, valued);
      TurnUniform(lim, rest, m, left, valued);
      ChainSnoc(lim, msgs, lists, valued, m, left);
      msgs, lists, rest := msgs + [m], lists + [left], left;
    }
    AllChainSent(lim, msgs, lists, valued);
    assert AllSent(msgs) + AllItems([]) == AllSent(msgs);
  }

  lemma {:induction false} EmptyFits(lim: Limits, ps: seq<Pair>, valued: bool)
    requires ps != [] && Uniform(ps, valued) && AllFit(lim, AllItems(ps))
    ensures valued ==> EMPTY_SIZE <= lim.max
  {
    FirstItem(ps);
    assert valued ==> Items(ps[0])[0] == With(ps[0].hist, ps[0].values[0]);
  }

  // ---------- routing values to nodes ----------

  type Node = nat

  /** The node of a value; with `both`, an edge also goes to the node of its other end. */
  datatype Routing = Routing(both: bool, node: Value -> Node, otherNode: Value -> Node)

  predicate GoesTo(r: Routing, v: Value, n: Node) {
    r.node(v) == n || (r.both && r.otherNode(v) == n)
  }

  /** The values for one node, in order, each once. */
  function ValuesFor(r: Routing, vs: seq<Value>, n: Node): seq<Value> {
    if vs == [] then []
    else
      var rest := ValuesFor(r, vs[..|vs| - 1], n);
      if GoesTo(r, vs[|vs| - 1], n) then rest + [vs[|vs| - 1]] else rest
  }

  /** The items for one node, in order. */
  function ItemsFor(r: Routing, ps: seq<Pair>, n: Node): seq<Item> {
    if ps == [] then [] else ItemsFor(r, ps[..|ps| - 1], n) + ItemsOf(ps[|ps| - 1].hist, ValuesFor(r, ps[|ps| - 1].values, n))
  }

  lemma {:induction false} ValuesForCount(r: Routing, vs: seq<Value>, n: Node, v: Value)
    ensures multiset(ValuesFor(r, vs, n))[v] ==
            if r.node(v) == n || (r.both && r.otherNode(v) == n) then multiset(vs)[v] else 0
  {
    if vs != [] {
      ValuesForCount(r, vs[..|vs| - 1], n, v);
      assert vs == vs[..|vs| - 1] + [vs[|vs| - 1]];
    }
  }

  lemma {:induction false} ItemsOfCount(g: Hist, vs: seq<Value>, h: Hist, v: Value)
    ensures multiset(ItemsOf(g, vs))[With(h, v)] == if g == h then multiset(vs)[v] else 0
  {
    if vs != [] {
      var init, w := vs[..|vs| - 1], vs[|vs| - 1];
      ItemsOfCount(g, init, h, v);
      assert vs == init + [w] && ItemsOf(g, vs) == ItemsOf(g, init) + [With(g, w)];
    }
  }

  /** A node is given a value with its history exactly as often as it came in,
      if the value or its other end lives there, and otherwise not at all. */
  lemma {:induction false} ItemsForCount(r: Routing, ps: seq<Pair>, n: Node, h: Hist, v: Value)
    ensures multiset(ItemsFor(r, ps, n))[With(h, v)] ==
            if r.node(v) == n || (r.both && r.otherNode(v) == n) then multiset(AllItems(ps))[With(h, v)] else 0
  {
    if ps != [] {
      var p := ps[|ps| - 1];
      ItemsForCount(r, ps[..|ps| - 1], n, h, v);
      ValuesForCount(r, p.values, n, v);
      ItemsOfCount(p.hist, ValuesFor(r, p.values, n), h, v);
      ItemsOfCount(p.hist, p.values, h, v);
    }
  }

  function Get<T>(m: map<Node, seq<T>>, n: Node): seq<T> {
    if n in m then m[n] else []
  }

  /** Split the values of one pair by node. */
  method SplitValues(r: Routing, vs: seq<Value>) returns (byNode: map<Node, seq<Value>>)
    ensures forall n :: Get(byNode, n) == ValuesFor(r, vs, n)
    ensures forall n | n in byNode :: byNode[n] != []
  {
    byNode := map[];
    for i := 0 to |vs|
      invariant forall n :: Get(byNode, n) == ValuesFor(r, vs[..i], n)
      invariant forall n | n in byNode :: byNode[n] != []
    {
      var v := vs[i];
      ghost var before := byNode;
      var node := r.node(v);
      if r.both {
        var other := r.otherNode(v);
        byNode := byNode[other := Get(byNode, other) + [v]];
        if node != other {
          byNode := byNode[node := Get(byNode, node) + [v]];
        }
      } else {
        byNode := byNode[node := Get(byNode, node) + [v]];
      }
      assert vs[..i + 1][..i] == vs[..i];
      forall n ensures Get(byNode, n) == ValuesFor(r, vs[..i + 1], n) {
        assert Get(before, n) == ValuesFor(r, vs[..i], n);
      }
    }
    assert vs[..|vs|] == vs;
  }

  /** The lists for all nodes hold the right items and no pair without values. */
  ghost predicate Sorted(r: Routing, lists: map<Node, seq<Pair>>, ps: seq<Pair>) {
    (forall n :: AllItems(Get(lists, n)) == ItemsFor(r, ps, n)) && Shaped(lists)
  }

  ghost predicate Shaped(lists: map<Node, seq<Pair>>) {
    forall n | n in lists :: lists[n] != [] && Uniform(lists[n], true)
  }

  method Pick(s: set<Node>) returns (n: Node)
    requires s != {}
    ensures n in s
  {
    n :| n in s;
  }

  /** Append one pair per node. */
  method AddPairs(lists: map<Node, seq<Pair>>, h: Hist, byNode: map<Node, seq<Value>>) returns (lists': map<Node, seq<Pair>>)
    requires forall n | n in byNode :: byNode[n] != []
    ensures Added(lists, lists', h, byNode)
  {
    lists' := lists;
    var todo := byNode.Keys;
    while todo != {}
      invariant todo <= byNode.Keys && lists'.Keys == lists.Keys + (byNode.Keys - todo)
      invariant forall n :: Get(lists', n) == if n in byNode && n !in todo then Get(lists, n) + [Pair(h, byNode[n])] else Get(lists, n)
      decreases todo
    {
      var n := Pick(todo);
      lists' := lists'[n := Get(lists', n) + [Pair(h, byNode[n])]];
      todo := todo - {n};
    }
  }

  /** What one more pair adds to the list of one node. */
  lemma {:induction false} NodeNext(r: Routing, list: seq<Pair>, ps: seq<Pair>, p: Pair, n: Node)
    requires AllItems(list) == ItemsFor(r, ps, n)
    ensures ValuesFor(r, p.values, n) == [] ==> AllItems(list) == ItemsFor(r, ps + [p], n)
    ensures ValuesFor(r, p.values, n) != [] ==>
      AllItems(list + [Pair(p.hist, ValuesFor(r, p.values, n))]) == ItemsFor(r, ps + [p], n)
  {
  }

  /** One pair per node was appended. */
  ghost predicate Added(lists: map<Node, seq<Pair>>, lists': map<Node, seq<Pair>>, h: Hist, byNode: map<Node, seq<Value>>) {
    && lists'.Keys == lists.Keys + byNode.Keys
    && forall n :: Get(lists', n) == if n in byNode then Get(lists, n) + [Pair(h, byNode[n])] else Get(lists, n)
  }

  lemma {:induction false} ShapedNext(lists: map<Node, seq<Pair>>, lists': map<Node, seq<Pair>>, h: Hist, byNode: map<Node, seq<Value>>)
    requires Shaped(lists) && Added(lists, lists', h, byNode) && forall n | n in byNode :: byNode[n] != []
    ensures Shaped(lists')
  {
  }

  lemma {:induction false} SortedNext(r: Routing, lists: map<Node, seq<Pair>>, lists': map<Node, seq<Pair>>, ps: seq<Pair>, p: Pair, byNode: map<Node, seq<Value>>)
    requires Sorted(r, lists, ps) && Added(lists, lists', p.hist, byNode)
    requires forall n :: Get(byNode, n) == ValuesFor(r, p.values, n)
    requires forall n | n in byNode :: byNode[n] != []
    ensures Sorted(r, lists', ps + [p])
  {
    ShapedNext(lists, lists', p.hist, byNode);
    forall n ensures AllItems(Get(lists', n)) == ItemsFor(r, ps + [p], n) {
      assert Get(byNode, n) == ValuesFor(r, p.values, n);
      NodeNext(r, Get(lists, n), ps, p, n);
    }
  }

  lemma {:induction false} SortedSkip(r: Routing, lists: map<Node, seq<Pair>>, ps: seq<Pair>, p: Pair)
    requires Sorted(r, lists, ps) && p.values == []
    ensures Sorted(r, lists, ps + [p])
  {
  }

  /** Sort one pair in. */
  method RouteOne(r: Routing, lists: map<Node, seq<Pair>>, ghost ps: seq<Pair>, p: Pair) returns (lists': map<Node, seq<Pair>>)
    requires Sorted(r, lists, ps)
    ensures Sorted(r, lists', ps + [p])
  {
    if p.values == [] {
      SortedSkip(r, lists, ps, p);
      return lists;
    }
    var byNode := SplitValues(r, p.values);
    lists' := AddPairs(lists, p.hist, byNode);
    SortedNext(r, lists, lists', ps, p, byNode);
  }

  /** The histories that arrived without values. */
  function Bares(ps: seq<Pair>): seq<Pair> {
    if ps == [] then []
    else
      var rest := Bares(ps[..|ps| - 1]);
      if ps[|ps| - 1].values == [] then rest + [ps[|ps| - 1]] else rest
  }

  /** Every pair without values is among them as often as it came in, and no other. */
  lemma {:induction false} BaresCount(ps: seq<Pair>, p: Pair)
    ensures multiset(Bares(ps))[p] == if p.values == [] then multiset(ps)[p] else 0
  {
    if ps != [] {
      BaresCount(ps[..|ps| - 1], p);
      assert ps == ps[..|ps| - 1] + [ps[|ps| - 1]];
    }
  }

  /** Sort the data by node. */
  method RouteValues(r: Routing, ps: seq<Pair>) returns (lists: map<Node, seq<Pair>>)
    ensures Sorted(r, lists, ps)
  {
    lists := map[];
    assert Sorted(r, lists, []);
    var i := 0;
    ghost var seen := [];
    while i < |ps|
      invariant i <= |ps| && seen == ps[..i] && Sorted(r, lists, seen)
    {
      lists := RouteOne(r, lists, seen, ps[i]);
      seen := seen + [ps[i]];
      i := i + 1;
    }
    assert ps[..|ps|] == ps;
  }

  /** Histories without values. */
  method CollectBares(ps: seq<Pair>) returns (empties: seq<Pair>)
    ensures empties == Bares(ps) && Uniform(empties, false)
  {
    empties := [];
    for i := 0 to |ps|
      invariant empties == Bares(ps[..i]) && Uniform(empties, false)
    {
      assert ps[..i + 1][..i] == ps[..i];
      if ps[i].values == [] {
        empties := empties + [ps[i]];
      }
    }
    assert ps[..|ps|] == ps;
  }

  // ---------- the whole dispatch ----------

  /** A message with its receiver. */
  datatype Out = Out(node: Node, data: seq<Pair>)

  function Tagged(n: Node, msgs: seq<seq<Pair>>): seq<Out> {
    if msgs == [] then [] else Tagged(n, msgs[..|msgs| - 1]) + [Out(n, msgs[|msgs| - 1])]
  }

  /** What the messages carry to one node, in order. */
  function SentTo(outs: seq<Out>, n: Node): seq<Item> {
    if outs == [] then []
    else
      var o, rest := outs[|outs| - 1], SentTo(outs[..|outs| - 1], n);
      if o.node == n then rest + AllItems(o.data) else rest
  }

  lemma {:induction false} SentToSnoc(outs: seq<Out>, o: Out, n: Node)
    ensures SentTo(outs + [o], n) == if o.node == n then SentTo(outs, n) + AllItems(o.data) else SentTo(outs, n)
  {
  }

  lemma {:induction false} SentToTagged(outs: seq<Out>, k: Node, msgs: seq<seq<Pair>>, n: Node)
    ensures SentTo(outs + Tagged(k, msgs), n) == if k == n then SentTo(outs, n) + AllSent(msgs) else SentTo(outs, n)
    decreases |msgs|
  {
    if msgs == [] {
      assert outs + Tagged(k, msgs) == outs;
    } else {
      var init, m := msgs[..|msgs| - 1], msgs[|msgs| - 1];
      SentToTagged(outs, k, init, n);
      Assoc(outs, Tagged(k, init), [Out(k, m)]);
      SentToSnoc(outs + Tagged(k, init), Out(k, m), n);
      Assoc(SentTo(outs, n), AllSent(init), AllItems(m));
    }
  }

  ghost predicate AllBounded(lim: Limits, outs: seq<Out>) {
    forall i | 0 <= i < |outs| :: EMPTY_SIZE + Weight(lim, outs[i].data) <= lim.max
  }

  lemma {:induction false} TaggedBounded(lim: Limits, n: Node, msgs: seq<seq<Pair>>)
    requires Bounded(lim, msgs)
    ensures AllBounded(lim, Tagged(n, msgs)) && (msgs != [] ==> Tagged(n, msgs) != [])
    decreases |msgs|
  {
    if msgs != [] {
      TaggedBounded(lim, n, msgs[..|msgs| - 1]);
    }
  }

  /** Every single value with its history fits into an empty message. */
  ghost predicate DataFits(lim: Limits, ps: seq<Pair>) {
    forall i, j | 0 <= i < |ps| && 0 <= j < |ps[i].values| :: Fits(lim, With(ps[i].hist, ps[i].values[j]))
  }

  ghost predicate ValuesFit(lim: Limits, h: Hist, vs: seq<Value>) {
    forall j | 0 <= j < |vs| :: Fits(lim, With(h, vs[j]))
  }

  lemma {:induction false} ValuesForFit(lim: Limits, r: Routing, h: Hist, vs: seq<Value>, n: Node)
    requires ValuesFit(lim, h, vs)
    ensures ValuesFit(lim, h, ValuesFor(r, vs, n))
    decreases |vs|
  {
    if vs != [] {
      ValuesForFit(lim, r, h, vs[..|vs| - 1], n);
    }
  }

  lemma {:induction false} ItemsForFit(lim: Limits, r: Routing, ps: seq<Pair>, n: Node)
    requires DataFits(lim, ps)
    ensures AllFit(lim, ItemsFor(r, ps, n))
    decreases |ps|
  {
    if ps != [] {
      var init, p := ps[..|ps| - 1], ps[|ps| - 1];
      assert DataFits(lim, init);
      ItemsForFit(lim, r, init, n);
      ValuesForFit(lim, r, p.hist, p.values, n);
      FitBoth(lim, ItemsFor(r, init, n), ItemsOf(p.hist, ValuesFor(r, p.values, n)));
    }
  }

  /** Pack the list of one node behind the messages made so far. */
  method PackNode(lim: Limits, outs: seq<Out>, n: Node, list: seq<Pair>) returns (outs': seq<Out>)
    requires list != [] && Uniform(list, true) && AllFit(lim, AllItems(list)) && AllBounded(lim, outs)
    ensures AllBounded(lim, outs') && outs' != []
    ensures forall k :: SentTo(outs', k) == if k == n then SentTo(outs, k) + AllItems(list) else SentTo(outs, k)
  {
    var msgs := Pack(lim, list, true);
    TaggedBounded(lim, n, msgs);
    forall k ensures SentTo(outs + Tagged(n, msgs), k) == if k == n then SentTo(outs, k) + AllItems(list) else SentTo(outs, k) {
      SentToTagged(outs, n, msgs, k);
    }
    outs' := outs + Tagged(n, msgs);
  }

  /** What was sent so far: nothing yet for the nodes still to do. */
  ghost predicate Progress(outs: seq<Out>, lists: map<Node, seq<Pair>>, todo: set<Node>) {
    forall n :: SentTo(outs, n) == if n in todo then [] else AllItems(Get(lists, n))
  }

  lemma {:induction false} ProgressNext(outs: seq<Out>, outs': seq<Out>, lists: map<Node, seq<Pair>>, todo: set<Node>, n: Node)
    requires Progress(outs, lists, todo) && n in todo && n in lists
    requires forall k :: SentTo(outs', k) == if k == n then SentTo(outs, k) + AllItems(lists[n]) else SentTo(outs, k)
    ensures Progress(outs', lists, todo - {n})
  {
  }

  /** Pack the lists of all nodes. */
  method PackAll(lim: Limits, lists: map<Node, seq<Pair>>) returns (outs: seq<Out>)
    requires Shaped(lists) && forall n | n in lists :: AllFit(lim, AllItems(lists[n]))
    ensures AllBounded(lim, outs) && (lists == map[] <==> outs == [])
    ensures forall n :: SentTo(outs, n) == AllItems(Get(lists, n))
  {
    outs := [];
    var todo := lists.Keys;
    while todo != {}
      invariant todo <= lists.Keys && AllBounded(lim, outs) && Progress(outs, lists, todo)
      invariant todo == lists.Keys <==> outs == []
      decreases todo
    {
      var n := Pick(todo);
      ghost var before := outs;
      outs := PackNode(lim, outs, n, lists[n]);
      ProgressNext(before, outs, lists, todo, n);
      todo := todo - {n};
    }
  }

  /** DispatchData without the count shortcut: it ends, sends at least one
      message, sends to each node exactly its items in order, keeps every
      message that carries values within the limit, and sends the histories
      without values (or one empty one when there is nothing else) separately. */
  method DispatchData(lim: Limits, r: Routing, ps: seq<Pair>, toBarrier: bool, noHist: Hist)
    returns (outs: seq<Out>, empties: seq<seq<Pair>>)
    requires DataFits(lim, ps)
    ensures outs != [] || empties != []
    ensures AllBounded(lim, outs) && forall n :: SentTo(outs, n) == ItemsFor(r, ps, n)
    ensures toBarrier && Bares(ps) != [] ==> AllSent(empties) == AllItems(Bares(ps))
    ensures !(toBarrier && Bares(ps) != []) && outs != [] ==> empties == []
    ensures !(toBarrier && Bares(ps) != []) && outs == [] ==> AllSent(empties) == [Bare(noHist)]
  {
    var lists := RouteValues(r, ps);
    forall n | n in lists ensures AllFit(lim, AllItems(lists[n])) {
      assert lists[n] == Get(lists, n);
      ItemsForFit(lim, r, ps, n);
    }
    var bares := CollectBares(ps);
    var left := if toBarrier then bares else [];
    if lists == map[] && left == [] {
      left := [Pair(noHist, [])];
    }
    outs := PackAll(lim, lists);
    empties := [];
    if left != [] {
      BareFit(lim, left);
      empties := Pack(lim, left, false);
      assert [Pair(noHist, [])][..0] == [];
    }
  }

  lemma {:induction false} BareFit(lim: Limits, ps: seq<Pair>)
    requires Uniform(ps, false)
    ensures AllFit(lim, AllItems(ps))
    decreases |ps|
  {
    if ps != [] {
      BareFit(lim, ps[..|ps| - 1]);
    }
  }
}
