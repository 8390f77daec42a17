// BoundedBuffer.cpp as a monitor: every interleaving of the passes its threads make through the lock.
//
// getItem and putItem hold shared_mutex except while they wait, so a thread's work divides into passes: from
// taking the lock to the next wait or to the return. wait() releases the lock and sleeps in one step; a
// notified or spuriously woken thread makes a new pass, which tests the loop condition again.

module Monitors {
  import opened Prelude

  type Tid = nat

  datatype Monitor<T> = Monitor(
    capacity: nat,
    buffer: seq<T>,
    sleepGet: set<Tid>,        // in data_available->wait, not notified
    readyGet: set<Tid>,        // woken from it, without the lock yet
    sleepPut: map<Tid, T>,     // in space_available->wait, with the item they bring
    readyPut: map<Tid, T>,
    puts: seq<T>, gets: seq<T>)  // history

  datatype Event<T> =
    | Get(t: Tid)                                      // getItem is called: its first pass
    | ResumeGet(t: Tid)                                // a woken getItem makes another pass
    | Put(t: Tid, item: T, wakes: Option<Tid>)         // putItem; wakes: whom notify_one picks
    | ResumePut(t: Tid, wakes: Option<Tid>)
    | SpuriousGet(t: Tid) | SpuriousPut(t: Tid)

  function Start<T>(capacity: nat): Monitor<T> { Monitor(capacity, [], {}, {}, map[], map[], [], []) }

  predicate Away<T>(m: Monitor<T>, t: Tid) {
    t !in m.sleepGet && t !in m.readyGet && t !in m.sleepPut && t !in m.readyPut
  }

  function GetPass<T>(m: Monitor<T>, t: Tid): Monitor<T> {
    if m.buffer == [] then m.(sleepGet := m.sleepGet + {t})
    else m.(buffer := m.buffer[1..], gets := m.gets + [m.buffer[0]])
  }

  // data_available->notify_one(): wakes one sleeper if there is one.
  function Notify<T>(m: Monitor<T>, wakes: Option<Tid>): Option<Monitor<T>> {
    match wakes
    case None => if m.sleepGet == {} then Some(m) else None
    case Some(w) =>
      if w in m.sleepGet then Some(m.(sleepGet := m.sleepGet - {w}, readyGet := m.readyGet + {w})) else None
  }

  function PutPass<T>(m: Monitor<T>, t: Tid, item: T, wakes: Option<Tid>): Option<Monitor<T>> {
    if |m.buffer| == m.capacity then
      if wakes.None? then Some(m.(sleepPut := m.sleepPut[t := item])) else None
    else Notify(m.(buffer := m.buffer + [item], puts := m.puts + [item]), wakes)
  }

  function Step<T>(m: Monitor<T>, e: Event<T>): Option<Monitor<T>> {
    match e
    case Get(t) => if Away(m, t) then Some(GetPass(m, t)) else None
    case ResumeGet(t) => if t in m.readyGet then Some(GetPass(m.(readyGet := m.readyGet - {t}), t)) else None
    case Put(t, item, wakes) => if Away(m, t) then PutPass(m, t, item, wakes) else None
    case ResumePut(t, wakes) =>
      if t in m.readyPut then PutPass(m.(readyPut := m.readyPut - {t}), t, m.readyPut[t], wakes) else None
    case SpuriousGet(t) =>
      if t in m.sleepGet then Some(m.(sleepGet := m.sleepGet - {t}, readyGet := m.readyGet + {t})) else None
    case SpuriousPut(t) =>
      if t in m.sleepPut
      then Some(m.(sleepPut := m.sleepPut - {t}, readyPut := m.readyPut[t := m.sleepPut[t]])) else None
  }

  function Run<T>(m: Monitor<T>, es: seq<Event<T>>): Option<Monitor<T>>
    decreases |es|
  {
    if es == [] then Some(m)
    else
      var next := Step(m, es[0]);
      if next.None? then None else Run(next.value, es[1..])
  }

  // ----- every interleaving

  ghost predicate Inv<T>(m: Monitor<T>) {
    && |m.buffer| <= m.capacity
    && m.puts == m.gets + m.buffer
    && m.sleepGet !! m.readyGet && m.sleepPut.Keys !! m.readyPut.Keys
    && (m.sleepGet != {} ==> |m.buffer| <= |m.readyGet|)
  }

  lemma GetPassKeepsInv<T>(m: Monitor<T>, t: Tid)
    requires |m.buffer| <= m.capacity && m.puts == m.gets + m.buffer
    requires m.sleepGet !! m.readyGet && m.sleepPut.Keys !! m.readyPut.Keys
    requires t !in m.readyGet && (m.sleepGet != {} ==> |m.buffer| <= |m.readyGet| + 1)
    requires m.buffer != [] || t !in m.sleepGet
    ensures Inv(GetPass(m, t))
  {
    if m.buffer != [] { assert m.buffer == [m.buffer[0]] + m.buffer[1..]; }
  }

  lemma PutPassKeepsInv<T>(m: Monitor<T>, t: Tid, item: T, wakes: Option<Tid>)
    requires Inv(m) && t !in m.readyPut && PutPass(m, t, item, wakes).Some?
    ensures Inv(PutPass(m, t, item, wakes).value)
  {
    if |m.buffer| != m.capacity && wakes.Some? {
      assert |m.readyGet + {wakes.value}| == |m.readyGet| + 1;
    }
  }

  lemma StepKeepsInv<T>(m: Monitor<T>, e: Event<T>)
    requires Inv(m) && Step(m, e).Some?
    ensures Inv(Step(m, e).value)
  {
    match e
    case Get(t) => GetPassKeepsInv(m, t);
    case ResumeGet(t) =>
      assert |m.readyGet - {t}| == |m.readyGet| - 1;
      GetPassKeepsInv(m.(readyGet := m.readyGet - {t}), t);
    case Put(t, item, wakes) => PutPassKeepsInv(m, t, item, wakes);
    case ResumePut(t, wakes) => PutPassKeepsInv(m.(readyPut := m.readyPut - {t}), t, m.readyPut[t], wakes);
    case SpuriousGet(t) => assert |m.readyGet + {t}| == |m.readyGet| + 1;
    case SpuriousPut(_) =>
  }

  lemma {:induction false} RunKeepsInv<T>(m: Monitor<T>, es: seq<Event<T>>)
    requires Inv(m) && Run(m, es).Some?
    ensures Inv(Run(m, es).value)
    decreases |es|
  {
    if es != [] {
      StepKeepsInv(m, es[0]);
      RunKeepsInv(Step(m, es[0]).value, es[1..]);
    }
  }

  // A bounded queue: never over capacity, and what was put is what was got followed by what is in it.
  lemma BoundedFifo<T>(capacity: nat, es: seq<Event<T>>)
    requires Run(Start(capacity), es).Some?
    ensures var m := Run(Start(capacity), es).value;
            |m.buffer| <= capacity && m.puts == m.gets + m.buffer && m.gets <= m.puts
  {
    RunKeepsInv(Start<T>(capacity), es);
    CapacityIsConstant(Start<T>(capacity), es);
  }

  lemma {:induction false} CapacityIsConstant<T>(m: Monitor<T>, es: seq<Event<T>>)
    requires Run(m, es).Some?
    ensures Run(m, es).value.capacity == m.capacity
    decreases |es|
  {
    if es != [] { CapacityIsConstant(Step(m, es[0]).value, es[1..]); }
  }

  // Consumers lose no wakeup: while one sleeps unnotified, every item in the buffer is covered by a woken
  // consumer of its own, and any of those can take the next item at once.
  lemma NoLostWakeup<T>(capacity: nat, es: seq<Event<T>>)
    requires Run(Start(capacity), es).Some?
    ensures var m := Run(Start(capacity), es).value;
            m.sleepGet != {} ==>
              && |m.buffer| <= |m.readyGet|
              && (m.buffer != [] ==>
                    m.readyGet != {} && forall t <- m.readyGet ::
                      Step(m, ResumeGet(t)).Some? && Step(m, ResumeGet(t)).value.gets == m.gets + [m.buffer[0]])
  {
    RunKeepsInv(Start<T>(capacity), es);
  }

  // ----- every call is accounted for

  // A thread is in one call.
  ghost predicate Apart<T>(m: Monitor<T>) {
    && (forall t :: t in m.sleepGet ==> t !in m.sleepPut && t !in m.readyPut)
    && (forall t :: t in m.readyGet ==> t !in m.sleepPut && t !in m.readyPut)
  }

  lemma StepKeepsApart<T>(m: Monitor<T>, e: Event<T>)
    requires Apart(m) && Step(m, e).Some?
    ensures Apart(Step(m, e).value)
  {
  }

  function Gets<T>(es: seq<Event<T>>): nat
    decreases |es|
  { if es == [] then 0 else (if es[0].Get? then 1 else 0) + Gets(es[1..]) }

  function Puts<T>(es: seq<Event<T>>): nat
    decreases |es|
  { if es == [] then 0 else (if es[0].Put? then 1 else 0) + Puts(es[1..]) }

  // The calls of getItem and of putItem so far: those that have returned and those that wait, notified or not.
  function GetCalls<T>(m: Monitor<T>): nat { |m.gets| + |m.sleepGet| + |m.readyGet| }

  function PutCalls<T>(m: Monitor<T>): nat { |m.puts| + |m.sleepPut.Keys| + |m.readyPut.Keys| }

  lemma GetPassCounts<T>(m: Monitor<T>, t: Tid)
    requires t !in m.sleepGet
    ensures GetCalls(GetPass(m, t)) == GetCalls(m) + 1 && PutCalls(GetPass(m, t)) == PutCalls(m)
  {
  }

  lemma NotifyCounts<T>(m: Monitor<T>, wakes: Option<Tid>)
    requires m.sleepGet !! m.readyGet && Notify(m, wakes).Some?
    ensures var n := Notify(m, wakes).value; PutCalls(n) == PutCalls(m) && GetCalls(n) == GetCalls(m)
  {
    if wakes.Some? {
      assert |m.sleepGet - {wakes.value}| == |m.sleepGet| - 1;
      assert |m.readyGet + {wakes.value}| == |m.readyGet| + 1;
    }
  }

  lemma PutPassCounts<T>(m: Monitor<T>, t: Tid, item: T, wakes: Option<Tid>)
    requires t !in m.sleepPut && m.sleepGet !! m.readyGet && PutPass(m, t, item, wakes).Some?
    ensures var n := PutPass(m, t, item, wakes).value; PutCalls(n) == PutCalls(m) + 1 && GetCalls(n) == GetCalls(m)
  {
    if |m.buffer| == m.capacity {
      assert m.sleepPut[t := item].Keys == m.sleepPut.Keys + {t};
    } else {
      NotifyCounts(m.(buffer := m.buffer + [item], puts := m.puts + [item]), wakes);
    }
  }

  lemma SpuriousCounts<T>(m: Monitor<T>, e: Event<T>)
    requires Inv(m) && Step(m, e).Some? && (e.SpuriousGet? || e.SpuriousPut?)
    ensures GetCalls(Step(m, e).value) == GetCalls(m) && PutCalls(Step(m, e).value) == PutCalls(m)
  {
    if e.SpuriousGet? {
      NotifyCounts(m, Some(e.t));
    } else {
      var n := Step(m, e).value;
      assert n.sleepPut.Keys == m.sleepPut.Keys - {e.t} && n.readyPut.Keys == m.readyPut.Keys + {e.t};
    }
  }

  lemma ResumeCounts<T>(m: Monitor<T>, e: Event<T>)
    requires Inv(m) && Step(m, e).Some? && (e.ResumeGet? || e.ResumePut?)
    ensures GetCalls(Step(m, e).value) == GetCalls(m) && PutCalls(Step(m, e).value) == PutCalls(m)
  {
    if e.ResumeGet? {
      var k := m.(readyGet := m.readyGet - {e.t});
      assert GetCalls(k) == GetCalls(m) - 1;
      GetPassCounts(k, e.t);
    } else {
      var k := m.(readyPut := m.readyPut - {e.t});
      assert k.readyPut.Keys == m.readyPut.Keys - {e.t};
      PutPassCounts(k, e.t, m.readyPut[e.t], e.wakes);
    }
  }

  lemma StepCounts<T>(m: Monitor<T>, e: Event<T>)
    requires Inv(m) && Step(m, e).Some?
    ensures GetCalls(Step(m, e).value) == GetCalls(m) + (if e.Get? then 1 else 0)
    ensures PutCalls(Step(m, e).value) == PutCalls(m) + (if e.Put? then 1 else 0)
  {
    match e
    case Get(t) => GetPassCounts(m, t);
    case Put(t, item, wakes) => PutPassCounts(m, t, item, wakes);
    case ResumeGet(_) | ResumePut(_, _) => ResumeCounts(m, e);
    case SpuriousGet(_) | SpuriousPut(_) => SpuriousCounts(m, e);
  }

  lemma {:induction false} RunCounts<T>(m: Monitor<T>, es: seq<Event<T>>)
    requires Inv(m) && Run(m, es).Some?
    ensures GetCalls(Run(m, es).value) == GetCalls(m) + Gets(es)
    ensures PutCalls(Run(m, es).value) == PutCalls(m) + Puts(es)
    decreases |es|
  {
    if es != [] {
      StepKeepsInv(m, es[0]);
      StepCounts(m, es[0]);
      RunCounts(Step(m, es[0]).value, es[1..]);
    }
  }

  // In every interleaving each call of getItem has returned an item or waits, and each call of putItem has put
  // its item or waits; so only calls that have not returned count as woken.
  lemma EveryCallCounted<T>(capacity: nat, es: seq<Event<T>>)
    requires Run(Start(capacity), es).Some?
    ensures var m := Run(Start(capacity), es).value;
            && Gets(es) == |m.gets| + |m.sleepGet| + |m.readyGet|
            && Puts(es) == |m.puts| + |m.sleepPut.Keys| + |m.readyPut.Keys|
  {
    RunCounts(Start<T>(capacity), es);
  }

  // A spurious wakeup does no harm: the woken thread tests the condition again and goes back to sleep.
  lemma SpuriousWakeupsAreHarmless<T>(m: Monitor<T>, t: Tid)
    requires Inv(m)
    ensures t in m.sleepGet && m.buffer == [] ==> Run(m, [SpuriousGet(t), ResumeGet(t)]) == Some(m)
    ensures t in m.sleepPut && |m.buffer| == m.capacity ==> Run(m, [SpuriousPut(t), ResumePut(t, None)]) == Some(m)
  {
    if t in m.sleepGet && m.buffer == [] {
      var n := Step(m, SpuriousGet(t)).value;
      assert n.readyGet - {t} == m.readyGet && n.sleepGet + {t} == m.sleepGet;
      TwoSteps(m, SpuriousGet(t), n, ResumeGet(t));
    }
    if t in m.sleepPut && |m.buffer| == m.capacity {
      var n := Step(m, SpuriousPut(t)).value;
      assert n.readyPut - {t} == m.readyPut && n.sleepPut[t := m.sleepPut[t]] == m.sleepPut;
      TwoSteps(m, SpuriousPut(t), n, ResumePut(t, None));
    }
  }

  lemma TwoSteps<T>(m: Monitor<T>, e: Event<T>, n: Monitor<T>, f: Event<T>)
    requires Step(m, e) == Some(n) && Step(n, f).Some?
    ensures Run(m, [e, f]) == Step(n, f)
  {
    var last: seq<Event<T>> := [f];
    assert [e, f][1..] == last && last[1..] == [];
    assert Run(n, last) == Run(Step(n, f).value, []);
  }

  // ----- producers

  // getItem signals nobody, so a producer asleep is woken spuriously or never.
  lemma {:induction false} OnlySpuriousWakesProducer<T>(m: Monitor<T>, es: seq<Event<T>>, t: Tid)
    requires Inv(m) && t in m.sleepPut && Run(m, es).Some? && SpuriousPut(t) !in es
    ensures var n := Run(m, es).value; t in n.sleepPut && n.sleepPut[t] == m.sleepPut[t]
    decreases |es|
  {
    if es != [] {
      assert es[0] in es && forall e <- es[1..] :: e in es;
      var n := Step(m, es[0]).value;
      StepKeepsInv(m, es[0]);
      assert t in n.sleepPut && n.sleepPut[t] == m.sleepPut[t];
      OnlySpuriousWakesProducer(n, es[1..], t);
    }
  }

  ghost predicate OnlyProducer<T>(es: seq<Event<T>>, p: Tid) {
    forall e <- es :: ((e.Put? || e.ResumePut?) ==> e.t == p) && !e.SpuriousPut?
  }

  lemma {:induction false} StalledFrom<T>(m: Monitor<T>, es: seq<Event<T>>, p: Tid)
    requires Inv(m) && p in m.sleepPut && Run(m, es).Some? && OnlyProducer(es, p)
    ensures var n := Run(m, es).value;
            && p in n.sleepPut && n.puts == m.puts
            && |n.buffer| <= |m.buffer| && n.gets + n.buffer == m.gets + m.buffer
    decreases |es|
  {
    if es != [] {
      assert es[0] in es && forall e <- es[1..] :: e in es;
      var n := Step(m, es[0]).value;
      assert n.gets + n.buffer == m.gets + m.buffer by {
        if m.buffer != [] { assert m.buffer == [m.buffer[0]] + m.buffer[1..]; }
      }
      StepKeepsInv(m, es[0]);
      StalledFrom(n, es[1..], p);
    }
  }

  // With one producer and no spurious wakeup of it, a putItem that has had to wait ends all putting: whatever
  // follows, nothing more is put, and at most `capacity` more items are got.
  lemma ProducerStall<T>(capacity: nat, es: seq<Event<T>>, fs: seq<Event<T>>, p: Tid)
    requires Run(Start(capacity), es).Some? && p in Run(Start(capacity), es).value.sleepPut
    requires OnlyProducer(es, p) && OnlyProducer(fs, p)
    requires Run(Run(Start(capacity), es).value, fs).Some?
    ensures var m := Run(Start(capacity), es).value;
            var n := Run(m, fs).value;
            n.puts == m.puts && |n.gets| <= |m.gets| + capacity && m.gets <= n.gets <= m.puts
  {
    var m := Run(Start<T>(capacity), es).value;
    RunKeepsInv(Start<T>(capacity), es);
    CapacityIsConstant(Start<T>(capacity), es);
    StalledFrom(m, fs, p);
    var n := Run(m, fs).value;
    assert |n.gets| + |n.buffer| == |m.gets| + |m.buffer| by { assert |n.gets + n.buffer| == |m.gets + m.buffer|; }
    GetsGrow(m, fs);
  }

  lemma {:induction false} GetsGrow<T>(m: Monitor<T>, es: seq<Event<T>>)
    requires Run(m, es).Some?
    ensures m.gets <= Run(m, es).value.gets
    decreases |es|
  {
    if es != [] { GetsGrow(Step(m, es[0]).value, es[1..]); }
  }

  // ----- the stall happens

  lemma {:induction false} RunAppend<T>(m: Monitor<T>, es: seq<Event<T>>, fs: seq<Event<T>>)
    requires Run(m, es).Some?
    ensures Run(m, es + fs) == Run(Run(m, es).value, fs)
    decreases |es|
  {
    if es == [] {
      assert es + fs == fs;
    } else {
      assert (es + fs)[1..] == es[1..] + fs;
      RunAppend(Step(m, es[0]).value, es[1..], fs);
    }
  }

  lemma RunFirst<T>(m: Monitor<T>, e: Event<T>, es: seq<Event<T>>)
    requires Step(m, e).Some?
    ensures Run(m, [e] + es) == Run(Step(m, e).value, es)
  {
    assert ([e] + es)[1..] == es;
  }

  // putItem for each item while all consumers are busy; the last one finds the buffer full.
  lemma {:induction false} PutAll<T>(m: Monitor<T>, p: Tid, items: seq<T>) returns (es: seq<Event<T>>)
    requires m.sleepGet == {} && Away(m, p) && items != [] && |m.buffer| + |items| == m.capacity + 1
    ensures var k := |items| - 1;
            Run(m, es) == Some(m.(buffer := m.buffer + items[..k], puts := m.puts + items[..k],
                                  sleepPut := m.sleepPut[p := items[k]]))
    ensures OnlyProducer(es, p)
    decreases |items|
  {
    var e := Put(p, items[0], None);
    if |items| == 1 {
      es := [e];
      assert es[1..] == [];
      assert m.buffer + items[..0] == m.buffer && m.puts + items[..0] == m.puts;
    } else {
      var n := Step(m, e).value;
      var rest := PutAll(n, p, items[1..]);
      es := [e] + rest;
      RunFirst(m, e, rest);
      var k := |items| - 1;
      assert items[..k] == [items[0]] + items[1..][..k - 1];
      assert m.buffer + items[..k] == n.buffer + items[1..][..k - 1];
      assert m.puts + items[..k] == n.puts + items[1..][..k - 1];
    }
  }

  // One consumer empties the buffer.
  lemma {:induction false} GetAll<T>(m: Monitor<T>, t: Tid) returns (es: seq<Event<T>>)
    requires Away(m, t)
    ensures Run(m, es) == Some(m.(buffer := [], gets := m.gets + m.buffer)) && forall e <- es :: e == Get(t)
    decreases |m.buffer|
  {
    es := [];
    if m.buffer == [] {
      assert m.gets + m.buffer == m.gets;
    } else {
      var n := Step(m, Get(t)).value;
      var rest := GetAll(n, t);
      es := [Get(t)] + rest;
      RunFirst(m, Get(t), rest);
      assert m.gets + m.buffer == n.gets + n.buffer;
    }
  }

  // Every worker calls getItem on the empty buffer.
  lemma {:induction false} SleepAll<T>(m: Monitor<T>, workers: set<Tid>) returns (es: seq<Event<T>>)
    requires m.buffer == [] && forall t <- workers :: Away(m, t)
    ensures Run(m, es) == Some(m.(sleepGet := m.sleepGet + workers)) && forall e <- es :: e.Get?
    decreases workers
  {
    es := [];
    if workers == {} {
      assert m.sleepGet + workers == m.sleepGet;
    } else {
      var t :| t in workers;
      var n := Step(m, Get(t)).value;
      var rest := SleepAll(n, workers - {t});
      es := [Get(t)] + rest;
      RunFirst(m, Get(t), rest);
      assert m.sleepGet + workers == n.sleepGet + (workers - {t});
    }
  }

  // Only a spurious wakeup, or a thread from outside, can still do anything.
  ghost predicate Dead<T(!new)>(m: Monitor<T>, threads: set<Tid>) {
    forall e: Event<T> :: e.t in threads && Step(m, e).Some? ==> e.SpuriousGet? || e.SpuriousPut?
  }

  // runServer's threads, for any capacity and any workers: the producer brings one item more than fits while
  // the workers are busy, they take what is there, and all of them sleep for good with that item unserved.
  lemma ServerStalls<T(!new)>(items: seq<T>, p: Tid, workers: set<Tid>) returns (es: seq<Event<T>>)
    requires items != [] && workers != {} && p !in workers
    ensures OnlyProducer(es, p) && Run(Start(|items| - 1), es).Some?
    ensures var m := Run(Start(|items| - 1), es).value;
            && m.gets == items[..|items| - 1] && m.buffer == []
            && m.sleepPut == map[p := items[|items| - 1]] && Dead(m, workers + {p})
  {
    var m0 := Start<T>(|items| - 1);
    var es1 := PutAll(m0, p, items);
    var m1 := Run(m0, es1).value;
    var worker :| worker in workers;
    var es2 := GetAll(m1, worker);
    var m2 := Run(m1, es2).value;
    var es3 := SleepAll(m2, workers);
    RunAppend(m0, es1, es2);
    RunAppend(m0, es1 + es2, es3);
    es := es1 + es2 + es3;
    var m := Run(m0, es).value;
    assert [] + items[..|items| - 1] == items[..|items| - 1];
    assert m.sleepGet == workers && m.readyGet == {} && m.readyPut == map[];
  }
}

module BoundedBuffers {
  import opened Prelude
  import opened Monitors

  // The object itself. A method is one pass through the lock; None means that the caller now waits.
  class BoundedBuffer<T(==)> {
    const capacity: nat
    var buffer: seq<T>
    var dataWaiters: set<Tid>          // sleeping in data_available
    var dataWoken: set<Tid>
    var spaceWaiters: map<Tid, T>      // sleeping in space_available
    var spaceWoken: map<Tid, T>
    ghost var puts: seq<T>
    ghost var gets: seq<T>

    ghost function Model(): Monitor<T>
      reads this
    { Monitor(capacity, buffer, dataWaiters, dataWoken, spaceWaiters, spaceWoken, puts, gets) }

    ghost predicate Valid()
      reads this
    { Inv(Model()) && Apart(Model()) }

    constructor (maxSize: nat)
      ensures Valid() && Model() == Start(maxSize)
    {
      capacity, buffer := maxSize, [];
      dataWaiters, dataWoken, spaceWaiters, spaceWoken := {}, {}, map[], map[];
      puts, gets := [], [];
    }

    method GetItem(t: Tid) returns (item: Option<T>)
      requires Valid() && (Away(Model(), t) || t in dataWoken)
      modifies this
      ensures Valid()
      ensures Some(Model()) == Step(old(Model()), if t in old(dataWoken) then ResumeGet(t) else Get(t))
      ensures old(buffer) == [] ==> item == None && t in dataWaiters
      ensures old(buffer) != [] ==>
        item == Some(old(buffer)[0]) && gets == old(gets) + [old(buffer)[0]] && Away(Model(), t)
    {
      ghost var e := if t in dataWoken then ResumeGet(t) else Get(t);
      StepKeepsInv(Model(), e);
      StepKeepsApart(Model(), e);
      dataWoken := dataWoken - {t};
      assert t !in old(dataWoken) ==> dataWoken == old(dataWoken);
      if |buffer| == 0 {
        dataWaiters := dataWaiters + {t};
        return None;
      }
      var front := buffer[0];
      gets := gets + [front];
      buffer := buffer[1..];
      item := Some(front);
    }

    // `wakes` is the sleeper notify_one picks, if any.
    method PutItem(t: Tid, newItem: T) returns (done: bool, wakes: Option<Tid>)
      requires Valid() && (Away(Model(), t) || (t in spaceWoken && spaceWoken[t] == newItem))
      modifies this
      ensures Valid()
      ensures Some(Model()) ==
              Step(old(Model()), if t in old(spaceWoken) then ResumePut(t, wakes) else Put(t, newItem, wakes))
      ensures done <==> |old(buffer)| != capacity
      ensures done ==> puts == old(puts) + [newItem] && Away(Model(), t)
      ensures !done ==> t in spaceWaiters && spaceWaiters[t] == newItem
    {
      done, wakes := TryPut(t, newItem);
      ghost var e := if t in old(spaceWoken) then ResumePut(t, wakes) else Put(t, newItem, wakes);
      StepKeepsInv(old(Model()), e);
      StepKeepsApart(old(Model()), e);
    }

    // The pass itself.
    method TryPut(t: Tid, newItem: T) returns (done: bool, wakes: Option<Tid>)
      requires t !in dataWaiters && t !in dataWoken && t !in spaceWaiters
      requires t in spaceWoken ==> spaceWoken[t] == newItem
      modifies this
      ensures Some(Model()) ==
              Step(old(Model()), if t in old(spaceWoken) then ResumePut(t, wakes) else Put(t, newItem, wakes))
      ensures done <==> |old(buffer)| != capacity
      ensures done ==> puts == old(puts) + [newItem] && spaceWaiters == old(spaceWaiters) && t !in spaceWoken
      ensures !done ==> t in spaceWaiters && spaceWaiters[t] == newItem
      ensures t !in dataWaiters && t !in dataWoken
    {
      spaceWoken := spaceWoken - {t};
      assert t !in old(spaceWoken) ==> spaceWoken == old(spaceWoken);
      wakes := None;
      if |buffer| == capacity {
        spaceWaiters := spaceWaiters[t := newItem];
        return false, None;
      }
      buffer := buffer + [newItem];
      puts := puts + [newItem];
      if dataWaiters != {} {
        var w :| w in dataWaiters;
        dataWaiters, dataWoken := dataWaiters - {w}, dataWoken + {w};
        wakes := Some(w);
      }
      done := true;
    }
  }
}
