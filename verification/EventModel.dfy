/** An event object of src/ipc.c: a word of event bits, and threads that wait for all or for any of some bits.
    What one send does to the waiting threads, and what holds after any interleaving of sends, receives,
    timeouts and resets. */
module EventModel {
  import opened Basics
  import opened Bitmap
  import opened WaitList

  /** event_set and event_info of a thread: the bits it wants, then, once it is resumed, those it got; and the
      options RT_EVENT_FLAG_AND, RT_EVENT_FLAG_OR, RT_EVENT_FLAG_CLEAR. */
  datatype Info = Info(eventSet: Word, all: bool, any: bool, clear: bool)

  /** What a thread waits for is there; AND goes before OR. */
  predicate Satisfied(w: Info, events: Word) {
    if w.all then And(w.eventSet, events) == w.eventSet else w.any && And(w.eventSet, events) != 0
  }

  /** The bits a satisfied thread gets */
  function Received(w: Info, events: Word): Word {
    if w.all then w.eventSet else And(w.eventSet, events)
  }

  /** Every wanted bit is there. */
  ghost predicate AllThere(want: Word, events: Word) {
    forall n :: 0 <= n < 32 && Bit(want, n) ==> Bit(events, n)
  }

  /** Some wanted bit is there. */
  ghost predicate SomeThere(want: Word, events: Word) {
    exists n :: 0 <= n < 32 && Bit(want, n) && Bit(events, n)
  }

  /** The bits of r are those of a that are not in b. */
  ghost predicate BitsLess(r: Word, a: Word, b: Word) {
    forall n :: 0 <= n < 32 ==> (Bit(r, n) <==> Bit(a, n) && !Bit(b, n))
  }

  ghost predicate BitsCommon(r: Word, a: Word, b: Word) {
    forall n :: 0 <= n < 32 ==> (Bit(r, n) <==> Bit(a, n) && Bit(b, n))
  }

  ghost predicate BitsJoined(r: Word, a: Word, b: Word) {
    forall n :: 0 <= n < 32 ==> (Bit(r, n) <==> Bit(a, n) || Bit(b, n))
  }

  /** An AND thread is satisfied when every bit it wants is there, an OR thread when some bit is; either gets the
      wanted bits that are there. */
  lemma SatisfiedBits(w: Info, events: Word)
    ensures w.all ==> (Satisfied(w, events) <==> AllThere(w.eventSet, events))
    ensures !w.all ==> (Satisfied(w, events) <==> w.any && SomeThere(w.eventSet, events))
    ensures Satisfied(w, events) ==> BitsCommon(Received(w, events), w.eventSet, events)
  {
    hide And, Bit;
    SubsetBits(w.eventSet, events);
    MeetBits(w.eventSet, events);
    forall n | 0 <= n < 32 ensures Bit(And(w.eventSet, events), n) <==> Bit(w.eventSet, n) && Bit(events, n) {
      WordSets(w.eventSet, events, n);
    }
  }

  lemma WordBits(a: Word, b: Word)
    ensures BitsCommon(And(a, b), a, b) && BitsJoined(Or(a, b), a, b) && BitsLess(AndNot(a, b), a, b)
  {
    hide And, Or, AndNot, Bit;
    forall n | 0 <= n < 32
      ensures (Bit(And(a, b), n) <==> Bit(a, n) && Bit(b, n)) && (Bit(Or(a, b), n) <==> Bit(a, n) || Bit(b, n))
      ensures Bit(AndNot(a, b), n) <==> Bit(a, n) && !Bit(b, n)
    {
      WordSets(a, b, n);
    }
  }

  /** The walk over the suspended threads so far: those passed over, those resumed, and the event bits left. */
  datatype Walk = Walk(left: seq<Tid>, woken: seq<Tid>, infos: map<Tid, Info>, events: Word)

  /** One thread of the walk in rt_event_send */
  function Examine(r: Walk, t: Tid): Walk
    requires t in r.infos
  {
    var w := r.infos[t];
    if Satisfied(w, r.events) then
      var got := w.(eventSet := Received(w, r.events));
      Walk(r.left, r.woken + [t], r.infos[t := got], if w.clear then AndNot(r.events, got.eventSet) else r.events)
    else r.(left := r.left + [t])
  }

  /** The walk over a list of suspended threads */
  function Scan(waiters: seq<Tid>, infos: map<Tid, Info>, events: Word): (r: Walk)
    requires forall t :: t in waiters ==> t in infos
    ensures r.infos.Keys == infos.Keys
  {
    if waiters == [] then Walk([], [], infos, events)
    else
      var n := |waiters| - 1;
      assert waiters[n] in waiters;
      Examine(Scan(waiters[..n], infos, events), waiters[n])
  }

  // ---------------------------------------------------------------- words

  predicate Within(a: Word, b: Word) {
    And(a, b) == a
  }

  predicate Disjoint(a: Word, b: Word) {
    And(a, b) == 0
  }

  lemma AndNotWithin(a: Word, b: Word)
    ensures Within(AndNot(a, b), a) && Disjoint(b, AndNot(a, b))
    ensures Within(b, a) ==> Or(AndNot(a, b), b) == a
  {
  }

  lemma WithinApart(a: Word, b: Word, c: Word)
    requires Disjoint(a, b) && Within(c, b)
    ensures Disjoint(a, c)
  {
    assert a & c == (a & b) & c;
  }

  lemma AndWithin(a: Word, b: Word)
    ensures Within(And(a, b), a) && Within(And(a, b), b)
  {
  }

  lemma AllLess(a: Word, b: Word, c: Word)
    requires Within(c, b) && Within(a, c)
    ensures Within(a, b)
  {
    assert a & b == (a & c) & b;
    assert (a & c) & b == a & (c & b);
  }

  /** What fewer bits satisfy, more bits satisfy. */
  lemma SatisfiedLess(w: Info, events: Word, events': Word)
    requires Within(events', events) && Satisfied(w, events')
    ensures Satisfied(w, events)
  {
    if w.all {
      AllLess(w.eventSet, events, events');
    } else if And(w.eventSet, events) == 0 {
      WithinApart(w.eventSet, events, events');
    }
    hide And;
  }

  // ---------------------------------------------------------------- what a walk does

  /** The bits that the resumed threads have taken out of the event word */
  function Taken(woken: seq<Tid>, infos: map<Tid, Info>): Word
    requires forall t :: t in woken ==> t in infos
  {
    if woken == [] then 0
    else
      var n := |woken| - 1;
      assert woken[n] in woken;
      var rest := Taken(woken[..n], infos);
      if infos[woken[n]].clear then Or(rest, infos[woken[n]].eventSet) else rest
  }

  lemma {:induction false} TakenFrame(woken: seq<Tid>, infos: map<Tid, Info>, infos': map<Tid, Info>)
    requires forall t :: t in woken ==> t in infos && t in infos' && infos'[t] == infos[t]
    ensures Taken(woken, infos') == Taken(woken, infos)
  {
    hide Or;
    if woken != [] {
      assert woken[|woken| - 1] in woken;
      TakenFrame(woken[..|woken| - 1], infos, infos');
    }
  }

  ghost predicate Members(waiters: seq<Tid>, r: Walk) {
    && Distinct(r.left) && Distinct(r.woken)
    && (forall t :: t in waiters <==> t in r.left || t in r.woken)
    && (forall t :: t in r.left ==> t !in r.woken)
  }

  /** Who is not resumed is as before; who is resumed got bits it wanted: all of them, or some. */
  ghost predicate Records(infos: map<Tid, Info>, r: Walk)
    requires r.infos.Keys == infos.Keys
  {
    && (forall t :: t in infos && t !in r.woken ==> r.infos[t] == infos[t])
    && (forall t :: t in r.woken ==> t in infos && Recorded(infos[t], r.infos[t]))
  }

  predicate Recorded(before: Info, after: Info) {
    && after == before.(eventSet := after.eventSet)
    && (if before.all then after.eventSet == before.eventSet else before.any && after.eventSet != 0 && Within(after.eventSet, before.eventSet))
  }

  /** Nobody passed over is satisfied by what is left. */
  ghost predicate NoneSatisfied(left: seq<Tid>, infos: map<Tid, Info>, events: Word) {
    forall t :: t in left ==> t in infos && !Satisfied(infos[t], events)
  }

  predicate Apart(infos: map<Tid, Info>, t: Tid, u: Tid) {
    t in infos && u in infos && (infos[t].clear && infos[u].clear ==> Disjoint(infos[t].eventSet, infos[u].eventSet))
  }

  /** The threads that clear bits share none, and leave none of theirs. */
  ghost predicate TakenOnce(r: Walk) {
    && (forall t :: t in r.woken ==> t in r.infos && (r.infos[t].clear ==> Disjoint(r.infos[t].eventSet, r.events)))
    && (forall t, u :: t in r.woken && u in r.woken && t != u ==> Apart(r.infos, t, u))
  }

  /** No bit is lost or made: those left and those taken are those there were. */
  ghost predicate Conserved(events: Word, r: Walk) {
    (forall t :: t in r.woken ==> t in r.infos) && Or(r.events, Taken(r.woken, r.infos)) == events
  }

  ghost predicate WalkOk(waiters: seq<Tid>, infos: map<Tid, Info>, events: Word, r: Walk) {
    && r.infos.Keys == infos.Keys
    && Members(waiters, r) && Records(infos, r) && NoneSatisfied(r.left, r.infos, r.events)
    && TakenOnce(r) && Conserved(events, r)
  }

  /** Thread t, satisfied, gets these bits of the event word. */
  lemma Gets(w: Info, events: Word)
    requires Satisfied(w, events)
    ensures Within(Received(w, events), events) && Recorded(w, w.(eventSet := Received(w, events)))
  {
    AndWithin(w.eventSet, events);
  }

  lemma ExamineOk(waiters: seq<Tid>, infos: map<Tid, Info>, events: Word, r: Walk, t: Tid)
    requires WalkOk(waiters, infos, events, r) && t in infos && t !in waiters
    ensures WalkOk(waiters + [t], infos, events, Examine(r, t))
  {
    hide And, Or, AndNot, Taken, Received, Satisfied, Within, Disjoint, Recorded;
    var r' := Examine(r, t);
    ExamineMembers(waiters, r, t);
    assert r.infos[t] == infos[t];
    if Satisfied(r.infos[t], r.events) {
      Gets(r.infos[t], r.events);
      ExamineTakes(r, t);
      ExamineConserves(events, r, t);
    }
    hide Members;
  }

  lemma ExamineMembers(waiters: seq<Tid>, r: Walk, t: Tid)
    requires Members(waiters, r) && t !in waiters && t in r.infos
    ensures Members(waiters + [t], Examine(r, t))
  {
    hide And, Satisfied, Received;
  }

  /** Resuming thread t keeps the others unsatisfied and the taken bits apart. */
  lemma ExamineTakes(r: Walk, t: Tid)
    requires t in r.infos && t !in r.left && t !in r.woken && Satisfied(r.infos[t], r.events)
    requires NoneSatisfied(r.left, r.infos, r.events) && TakenOnce(r)
    ensures var r' := Examine(r, t); NoneSatisfied(r'.left, r'.infos, r'.events) && TakenOnce(r')
  {
    hide And, Or, AndNot, Received, Satisfied, Within, Disjoint;
    var r' := Examine(r, t);
    var bits := r'.infos[t].eventSet;
    Gets(r.infos[t], r.events);
    AndNotWithin(r.events, bits);
    if r.infos[t].clear {
      forall u | u in r.left ensures !Satisfied(r.infos[u], r'.events) {
        if Satisfied(r.infos[u], r'.events) {
          SatisfiedLess(r.infos[u], r.events, r'.events);
        }
      }
      forall u | u in r.woken && r.infos[u].clear
        ensures Disjoint(r.infos[u].eventSet, r'.events) && Disjoint(r.infos[u].eventSet, bits) && Disjoint(bits, r.infos[u].eventSet)
      {
        WithinApart(r.infos[u].eventSet, r.events, r'.events);
        WithinApart(r.infos[u].eventSet, r.events, bits);
        DisjointSwap(r.infos[u].eventSet, bits);
      }
    }
  }

  lemma DisjointSwap(a: Word, b: Word)
    requires Disjoint(a, b)
    ensures Disjoint(b, a)
  {
    assert b & a == a & b;
  }

  lemma ExamineConserves(events: Word, r: Walk, t: Tid)
    requires t in r.infos && t !in r.woken && Satisfied(r.infos[t], r.events) && Conserved(events, r)
    ensures Conserved(events, Examine(r, t))
  {
    hide And, Or, AndNot, Received, Satisfied, Within, Disjoint;
    var r' := Examine(r, t);
    var bits := r'.infos[t].eventSet;
    Gets(r.infos[t], r.events);
    AndNotWithin(r.events, bits);
    assert r'.woken[..|r'.woken| - 1] == r.woken;
    TakenFrame(r.woken, r.infos, r'.infos);
    OrMoves(AndNot(r.events, bits), bits, Taken(r.woken, r.infos));
  }

  lemma OrMoves(a: Word, b: Word, c: Word)
    ensures Or(a, Or(c, b)) == Or(Or(a, b), c)
  {
  }

  /** One send's walk: every thread is resumed or stays, those who stay are not satisfied by the bits that are
      left at the end, those resumed got what they asked for, and no bit went to two clearing threads or got
      lost. */
  lemma {:induction false} ScanOk(waiters: seq<Tid>, infos: map<Tid, Info>, events: Word)
    requires Distinct(waiters) && forall t :: t in waiters ==> t in infos
    ensures WalkOk(waiters, infos, events, Scan(waiters, infos, events))
  {
    hide And, Or, AndNot, Examine;
    if waiters == [] {
      OrZero(events);
    } else {
      var n := |waiters| - 1;
      assert waiters == waiters[..n] + [waiters[n]];
      assert waiters[n] in waiters;
      ScanOk(waiters[..n], infos, events);
      hide WalkOk;
      ExamineOk(waiters[..n], infos, events, Scan(waiters[..n], infos, events), waiters[n]);
    }
  }

  lemma OrZero(a: Word)
    ensures Or(a, 0) == a
  {
  }

  /** The thread at hand is judged by the bits that those before it have left; the others keep their fate. */
  lemma ExamineExact(r: Walk, t: Tid)
    requires t in r.infos && t !in r.woken
    ensures var r' := Examine(r, t);
            && r'.infos.Keys == r.infos.Keys
            && (t in r'.woken <==> Satisfied(r.infos[t], r.events))
            && (t in r'.woken ==> r'.infos[t].eventSet == Received(r.infos[t], r.events))
            && (forall u :: u != t ==> (u in r'.woken <==> u in r.woken))
            && (forall u :: u != t && u in r.infos ==> r'.infos[u] == r.infos[u])
  {
    hide And, AndNot, Satisfied, Received;
  }

  /** Each thread is resumed exactly if the bits that those before it have left satisfy it, and then gets its
      share of them. */
  lemma {:induction false} ScanExact(waiters: seq<Tid>, infos: map<Tid, Info>, events: Word, i: nat)
    requires Distinct(waiters) && (forall t :: t in waiters ==> t in infos) && i < |waiters|
    ensures var t, r, before := waiters[i], Scan(waiters, infos, events), Scan(waiters[..i], infos, events).events;
            && (t in r.woken <==> Satisfied(infos[t], before))
            && (t in r.woken ==> r.infos[t].eventSet == Received(infos[t], before))
  {
    hide And, Or, AndNot, Satisfied, Received, Examine;
    var n := |waiters| - 1;
    var front, t, last := waiters[..n], waiters[i], waiters[n];
    assert waiters == front + [last] && last in waiters && t in waiters && last !in front;
    ScanOk(front, infos, events);
    hide TakenOnce, Conserved, NoneSatisfied, Recorded;
    ExamineExact(Scan(front, infos, events), last);
    if i < n {
      assert front[i] == t && front[..i] == waiters[..i];
      ScanExact(front, infos, events, i);
      assert last != t;
    }
  }

  /** A thread that took bits out of the event word took exactly those it was told. */
  lemma ClearsWhatItGets(w: Info, events: Word)
    requires Satisfied(w, events)
    ensures var got := Received(w, events);
            && And(events, w.eventSet) == got
            && AndNot(events, got) == AndNot(events, w.eventSet)
  {
    var a := w.eventSet;
    assert a & events == events & a;
    assert events & !(a & events) == events & !a;
  }

  // ---------------------------------------------------------------- the object and its steps

  /** `waiters` are the suspended threads in list order, `infos` the event_set and event_info of every thread
      that is inside rt_event_recv, `pending` the error codes of those that have been resumed.  For the statements
      only: `since` numbers the waiters in the order they came. */
  datatype Event = Event(
    flag: Flag, events: Word, waiters: seq<Tid>, priority: map<Tid, nat>, infos: map<Tid, Info>, pending: map<Tid, Err>,
    since: map<Tid, nat>, clock: nat)

  datatype Outcome = Waits | Done(err: Err) | Got(bits: Word)

  predicate Idle(e: Event, t: Tid) {
    t in e.priority && t !in e.infos
  }

  /** The error codes when all of the list have been resumed by a send. */
  function Resumed(error: map<Tid, Err>, list: seq<Tid>): map<Tid, Err> {
    error + map t | t in list :: EOK
  }

  /** rt_event_send */
  function Send(e: Event, bits: Word): (Event, Err)
    requires forall t :: t in e.waiters ==> t in e.infos
  {
    if bits == 0 then (e, ERROR)
    else
      var r := Scan(e.waiters, e.infos, Or(e.events, bits));
      (e.(events := r.events, waiters := r.left, infos := r.infos, pending := Resumed(e.pending, r.woken)), EOK)
  }

  /** rt_event_recv up to its return or the schedule */
  function Recv(e: Event, t: Tid, w: Info, timeout: int): (Event, Outcome)
    requires t in e.priority && forall u :: u in e.waiters ==> u in e.priority
  {
    if w.eventSet == 0 then (e, Done(ERROR))
    else if Satisfied(w, e.events) then
      (if w.clear then e.(events := AndNot(e.events, w.eventSet)) else e, Got(And(e.events, w.eventSet)))
    else if timeout == 0 then (e, Done(ETIMEOUT))
    else
      (e.(waiters := Queued(e.flag, e.waiters, e.priority, t), infos := e.infos[t := w],
          since := e.since[t := e.clock], clock := e.clock + 1), Waits)
  }

  /** The rest of rt_event_recv, once the thread runs again */
  function Return(e: Event, t: Tid): (Event, Outcome)
    requires t in e.pending && t in e.infos
  {
    (e.(infos := e.infos - {t}, pending := e.pending - {t}),
     if e.pending[t] == EOK then Got(e.infos[t].eventSet) else Done(e.pending[t]))
  }

  /** rt_thread_timeout of a waiting thread */
  function TimeOut(e: Event, t: Tid): Event {
    e.(waiters := Erase(e.waiters, t), pending := e.pending[t := ETIMEOUT])
  }

  /** rt_event_control with RT_IPC_CMD_RESET */
  function Reset(e: Event): Event {
    e.(waiters := [], events := 0, pending := Failed(e.pending, e.waiters))
  }

  // ---------------------------------------------------------------- what always holds

  ghost predicate Lists(e: Event) {
    && Distinct(e.waiters)
    && (forall t :: t in e.waiters ==> t in e.infos && t !in e.pending)
    && (forall t :: t in e.pending ==> t in e.infos)
    && (forall t :: t in e.infos ==> t in e.priority)
  }

  /** The list is in order, no thread waits for what is there, and none that was resumed with success got nothing. */
  ghost predicate Inv(e: Event) {
    && Lists(e)
    && Ordered(e.flag, e.waiters, e.priority, e.since, e.clock)
    && NoneSatisfied(e.waiters, e.infos, e.events)
    && (forall t :: t in e.infos ==> e.infos[t].eventSet != 0 && (e.infos[t].all || e.infos[t].any))
  }

  /** A walk leaves the threads it passes over in their order. */
  lemma {:induction false} LeftOrdered(waiters: seq<Tid>, infos: map<Tid, Info>, events: Word, flag: Flag,
                                         priority: map<Tid, nat>, since: map<Tid, nat>, clock: nat)
    requires (forall t :: t in waiters ==> t in infos) && Ordered(flag, waiters, priority, since, clock)
    ensures var left := Scan(waiters, infos, events).left;
            (forall t :: t in left ==> t in waiters) && Ordered(flag, left, priority, since, clock)
  {
    hide And, AndNot, Satisfied, Received;
    if waiters != [] {
      var n := |waiters| - 1;
      var front, t := waiters[..n], waiters[n];
      assert t in waiters;
      FrontOrdered(flag, waiters, priority, since, clock);
      LeftOrdered(front, infos, events, flag, priority, since, clock);
      AppendOrdered(flag, Scan(front, infos, events).left, waiters, priority, since, clock);
    }
  }

  lemma FrontOrdered(flag: Flag, waiters: seq<Tid>, priority: map<Tid, nat>, since: map<Tid, nat>, clock: nat)
    requires Ordered(flag, waiters, priority, since, clock) && waiters != []
    ensures Ordered(flag, waiters[..|waiters| - 1], priority, since, clock)
  {
    var front := waiters[..|waiters| - 1];
    assert forall w :: w in front ==> w in waiters;
    assert forall i :: 0 <= i < |front| ==> front[i] == waiters[i];
  }

  /** Some of the threads before the last one, in order, then the last one */
  lemma AppendOrdered(flag: Flag, left: seq<Tid>, waiters: seq<Tid>, priority: map<Tid, nat>, since: map<Tid, nat>, clock: nat)
    requires Ordered(flag, waiters, priority, since, clock) && waiters != [] && Ordered(flag, left, priority, since, clock)
    requires forall t :: t in left ==> t in waiters[..|waiters| - 1]
    ensures Ordered(flag, left + [waiters[|waiters| - 1]], priority, since, clock)
  {
    var n := |waiters| - 1;
    var t, l := waiters[n], left + [waiters[n]];
    assert t in waiters;
    forall i | 0 <= i < |left|
      ensures l[i] in priority && Turn(flag, priority, since, l[i], t) && (flag == PRIO ==> priority[l[i]] <= priority[t])
    {
      assert left[i] in left;
      var k :| 0 <= k < n && waiters[..n][k] == left[i];
      assert Turn(flag, priority, since, waiters[k], waiters[n]);
    }
    assert forall i, j :: 0 <= i < j < |left| ==> Turn(flag, priority, since, left[i], left[j]);
    hide Turn;
  }

  lemma SendKeeps(e: Event, bits: Word)
    requires Inv(e)
    ensures Inv(Send(e, bits).0)
  {
    hide And, Or, AndNot, Satisfied, Within, Scan, Conserved, TakenOnce, Ordered, NoneSatisfied;
    if bits != 0 {
      ScanOk(e.waiters, e.infos, Or(e.events, bits));
      assert forall w :: w in e.waiters ==> w in e.infos;
      LeftOrdered(e.waiters, e.infos, Or(e.events, bits), e.flag, e.priority, e.since, e.clock);
      hide Distinct;
    }
  }

  /** The event word as a send's walk comes to waiter i, or ends with it */
  ghost function WordAt(e: Event, bits: Word, i: nat): Word
    requires i <= |e.waiters| && forall t :: t in e.waiters ==> t in e.infos
  {
    Scan(e.waiters[..i], e.infos, Or(e.events, bits)).events
  }

  /** A send bit by bit: the walk starts with the old and the sent bits; a waiter whose bits are there when the walk
      comes to it returns with the wanted bits that are there, which go if it asked to clear; every other waiter goes
      on waiting. */
  lemma SendMeans(e: Event, bits: Word, i: nat)
    requires Inv(e) && bits != 0 && i < |e.waiters|
    ensures BitsJoined(WordAt(e, bits, 0), e.events, bits) && WordAt(e, bits, |e.waiters|) == Send(e, bits).0.events
    ensures var (e', t) := (Send(e, bits).0, e.waiters[i]);
            var (w, word) := (e.infos[t], WordAt(e, bits, i));
            if (if w.all then AllThere(w.eventSet, word) else w.any && SomeThere(w.eventSet, word)) then
              && t !in e'.waiters && t in e'.pending && t in e'.infos && Return(e', t).1.Got?
              && BitsCommon(Return(e', t).1.bits, w.eventSet, word)
              && if w.clear then BitsLess(WordAt(e, bits, i + 1), word, w.eventSet) else WordAt(e, bits, i + 1) == word
            else t in e'.waiters && e'.infos[t] == w && WordAt(e, bits, i + 1) == word
  {
    hide Inv, And, Or, AndNot, Satisfied, Received, BitsJoined, BitsCommon, BitsLess, AllThere, SomeThere, Scan;
    var t := e.waiters[i];
    WaiterKnown(e, i);
    SendWords(e, bits, i);
    SendFate(e, bits, i);
    SatisfiedBits(e.infos[t], WordAt(e, bits, i));
    WordBits(e.events, bits);
    LessReceived(e.infos[t], WordAt(e, bits, i));
    hide WordAt, Send;
  }

  lemma WaiterKnown(e: Event, i: nat)
    requires Inv(e) && i < |e.waiters|
    ensures e.waiters[i] in e.infos && (e.infos[e.waiters[i]].all || e.infos[e.waiters[i]].any)
    ensures forall t :: t in e.waiters ==> t in e.infos
  {
    assert e.waiters[i] in e.waiters;
  }

  /** The words that the walk comes through */
  lemma SendWords(e: Event, bits: Word, i: nat)
    requires Inv(e) && bits != 0 && i < |e.waiters|
    ensures WordAt(e, bits, 0) == Or(e.events, bits) && WordAt(e, bits, |e.waiters|) == Send(e, bits).0.events
    ensures var t, word := e.waiters[i], WordAt(e, bits, i);
            && t in e.infos
            && WordAt(e, bits, i + 1) ==
               if Satisfied(e.infos[t], word) && e.infos[t].clear then AndNot(word, Received(e.infos[t], word)) else word
  {
    hide And, Or, AndNot, Satisfied, Received, Ordered, NoneSatisfied;
    var l, t := e.waiters, e.waiters[i];
    assert l[..0] == [] && l[..|l|] == l && l[..i + 1][..i] == l[..i] && l[..i + 1][i] == t;
    PrefixDistinct(l, i);
    assert t in l;
    NotYetScanned(l[..i], e.infos, Or(e.events, bits), t);
  }

  lemma NotYetScanned(waiters: seq<Tid>, infos: map<Tid, Info>, events: Word, t: Tid)
    requires Distinct(waiters) && (forall u :: u in waiters ==> u in infos) && t !in waiters && t in infos
    ensures Scan(waiters, infos, events).infos[t] == infos[t]
  {
    ScanOk(waiters, infos, events);
    hide And, Or, AndNot, Scan, Recorded, NoneSatisfied, TakenOnce, Conserved;
  }

  /** What becomes of waiter i */
  lemma SendFate(e: Event, bits: Word, i: nat)
    requires Inv(e) && bits != 0 && i < |e.waiters|
    ensures var (e', t) := (Send(e, bits).0, e.waiters[i]);
            && t in e.infos && t in e'.infos
            && if Satisfied(e.infos[t], WordAt(e, bits, i)) then
                 && t !in e'.waiters && t in e'.pending
                 && Return(e', t).1 == Got(Received(e.infos[t], WordAt(e, bits, i)))
               else t in e'.waiters && e'.infos[t] == e.infos[t]
  {
    hide And, Or, AndNot, Satisfied, Received, Ordered, NoneSatisfied, TakenOnce, Conserved, Recorded, Scan;
    var l, t := e.waiters, e.waiters[i];
    assert t in l;
    ScanOk(l, e.infos, Or(e.events, bits));
    ScanExact(l, e.infos, Or(e.events, bits), i);
    hide Distinct;
  }

  lemma PrefixDistinct(l: seq<Tid>, i: nat)
    requires Distinct(l) && i < |l|
    ensures Distinct(l[..i]) && l[i] !in l[..i]
  {
  }

  /** The bits of a clearing thread leave the word. */
  lemma LessReceived(w: Info, events: Word)
    ensures Satisfied(w, events) ==> BitsLess(AndNot(events, Received(w, events)), events, w.eventSet)
  {
    hide And, AndNot, Satisfied, Received, Bit;
    SatisfiedBits(w, events);
    WordBits(events, Received(w, events));
  }

  /** Every bit there was or is sent is still there or was taken by exactly the threads that clear. */
  lemma SendConserves(e: Event, bits: Word)
    requires Inv(e) && bits != 0
    ensures var r := Scan(e.waiters, e.infos, Or(e.events, bits));
            && Send(e, bits).0.events == r.events
            && TakenOnce(r) && Conserved(Or(e.events, bits), r)
            && (forall t :: t in e.waiters && t !in Send(e, bits).0.waiters ==> t in r.woken && Send(e, bits).0.infos[t] == r.infos[t])
  {
    hide And, Or, AndNot, Satisfied, Within, Disjoint, Scan, Taken;
    ScanOk(e.waiters, e.infos, Or(e.events, bits));
    hide Distinct;
  }

  /** What a receive wants is there. */
  ghost predicate There(w: Info, events: Word) {
    if w.all then AllThere(w.eventSet, events) else SomeThere(w.eventSet, events)
  }

  /** A receive returns at once exactly when every bit it wants is there, or with the OR option some bit: it gets the
      wanted bits that are there, and takes the wanted bits out of the word if it asks to clear.  Otherwise it returns
      -RT_ETIMEOUT if it will not wait, and else waits; a receive that wants no bit fails. */
  lemma RecvMeans(e: Event, t: Tid, w: Info, timeout: int)
    requires Inv(e) && Idle(e, t) && (w.all || w.any)
    ensures forall u :: u in e.waiters ==> u in e.priority
    ensures var (e', r) := Recv(e, t, w, timeout);
            if w.eventSet == 0 then r == Done(ERROR) && e' == e
            else if There(w, e.events) then
              && r.Got? && BitsCommon(r.bits, w.eventSet, e.events) && e'.waiters == e.waiters
              && if w.clear then BitsLess(e'.events, e.events, w.eventSet) else e'.events == e.events
            else if timeout == 0 then r == Done(ETIMEOUT) && e' == e
            else r == Waits && Gone(e'.waiters, e.waiters, t) && t in e'.waiters
                 && t in e'.infos && e'.infos[t] == w && e'.events == e.events
  {
    hide And, AndNot, Satisfied, BitsCommon, BitsLess, BitsJoined, AllThere, SomeThere, Ordered, NoneSatisfied;
    SatisfiedBits(w, e.events);
    if Satisfied(w, e.events) {
      ClearsWhatItGets(w, e.events);
      WordBits(e.events, w.eventSet);
      hide Received;
    } else {
      QueuedProps(e.flag, e.waiters, e.priority, t);
      hide Queued;
    }
    hide Distinct;
  }

  lemma RecvKeeps(e: Event, t: Tid, w: Info, timeout: int)
    requires Inv(e) && Idle(e, t) && (w.all || w.any)
    ensures forall u :: u in e.waiters ==> u in e.priority
    ensures Inv(Recv(e, t, w, timeout).0)
  {
    hide And, AndNot, Satisfied, Ordered;
    if w.eventSet != 0 && Satisfied(w, e.events) {
      AndNotWithin(e.events, w.eventSet);
      hide Within, Disjoint, Distinct;
      forall u | u in e.waiters ensures !Satisfied(e.infos[u], AndNot(e.events, w.eventSet)) {
        if Satisfied(e.infos[u], AndNot(e.events, w.eventSet)) {
          SatisfiedLess(e.infos[u], e.events, AndNot(e.events, w.eventSet));
        }
      }
    } else {
      QueuedProps(e.flag, e.waiters, e.priority, t);
      QueuedOrdered(e.flag, e.waiters, e.priority, e.since, e.clock, t);
      hide Queued, Distinct;
    }
  }

  /** A receive that waited returns the bits recorded for it, which are some, or its error. */
  lemma ReturnKeeps(e: Event, t: Tid)
    requires Inv(e) && t in e.pending
    ensures t in e.infos && Inv(Return(e, t).0)
    ensures if e.pending[t] == EOK then Return(e, t).1 == Got(e.infos[t].eventSet) && Return(e, t).1.bits != 0
            else Return(e, t).1 == Done(e.pending[t])
  {
    hide Satisfied, Distinct, Ordered;
  }

  lemma TimeOutKeeps(e: Event, t: Tid)
    requires Inv(e) && t in e.waiters
    ensures Inv(TimeOut(e, t))
    ensures t in e.infos && Gone(e.waiters, TimeOut(e, t).waiters, t) && Return(TimeOut(e, t), t).1 == Done(ETIMEOUT)
  {
    EraseProps(e.waiters, t);
    EraseDistinct(e.waiters, t);
    ErasedOrdered(e.flag, e.waiters, e.priority, e.since, e.clock, t);
    hide Satisfied, Distinct, Erase, Ordered;
  }

  /** A reset leaves no bit, and every waiting receive fails. */
  lemma ResetKeeps(e: Event)
    requires Inv(e)
    ensures Inv(Reset(e)) && Reset(e).waiters == [] && forall n :: 0 <= n < 32 ==> !Bit(Reset(e).events, n)
    ensures forall t :: t in e.waiters ==> t in e.infos && t in Reset(e).pending && Return(Reset(e), t).1 == Done(ERROR)
  {
    hide Satisfied, Bit;
    NoBits(0);
  }

  // ---------------------------------------------------------------- runs

  datatype Step =
    | SendStep(bits: Word) | RecvStep(t: Tid, want: Info, timeout: int) | ReturnStep(t: Tid) | TimeOutStep(t: Tid) | ResetStep

  ghost predicate Possible(e: Event, st: Step) {
    match st
    case SendStep(_) => true
    case RecvStep(t, w, _) => Idle(e, t) && (w.all || w.any)
    case ReturnStep(t) => t in e.pending
    case TimeOutStep(t) => t in e.waiters
    case ResetStep => true
  }

  ghost function Next(e: Event, st: Step): Event
    requires Inv(e) && Possible(e, st)
  {
    match st
    case SendStep(bits) => Send(e, bits).0
    case RecvStep(t, w, timeout) => Recv(e, t, w, timeout).0
    case ReturnStep(t) => Return(e, t).0
    case TimeOutStep(t) => TimeOut(e, t)
    case ResetStep => Reset(e)
  }

  ghost predicate Run(e: Event, steps: seq<Step>, e': Event)
    decreases |steps|
  {
    if steps == [] then e' == e else Inv(e) && Possible(e, steps[0]) && Run(Next(e, steps[0]), steps[1..], e')
  }

  /** rt_event_init */
  function Fresh(flag: Flag, priority: map<Tid, nat>): Event {
    Event(flag, 0, [], priority, map[], map[], map[], 0)
  }

  lemma StepKeeps(e: Event, st: Step)
    requires Inv(e) && Possible(e, st)
    ensures Inv(Next(e, st))
  {
    match st
    case SendStep(bits) => SendKeeps(e, bits);
    case RecvStep(t, w, timeout) => RecvKeeps(e, t, w, timeout);
    case ReturnStep(t) => ReturnKeeps(e, t);
    case TimeOutStep(t) => TimeOutKeeps(e, t);
    case ResetStep => ResetKeeps(e);
  }

  lemma {:induction false} RunKeeps(e: Event, steps: seq<Step>, e': Event)
    requires Inv(e) && Run(e, steps, e')
    ensures Inv(e')
    decreases |steps|
  {
    hide Inv, Next, Possible;
    if steps != [] {
      StepKeeps(e, steps[0]);
      RunKeeps(Next(e, steps[0]), steps[1..], e');
    }
  }

  /** In every state reachable from rt_event_init some bit that a suspended AND thread wants is missing, and no bit
      that a suspended OR thread wants is there. */
  lemma NobodyWaitsInVain(flag: Flag, priority: map<Tid, nat>, steps: seq<Step>, e: Event, t: Tid)
    requires Run(Fresh(flag, priority), steps, e) && t in e.waiters
    ensures t in e.infos && (e.infos[t].all || e.infos[t].any)
    ensures e.infos[t].all ==> exists n :: 0 <= n < 32 && Bit(e.infos[t].eventSet, n) && !Bit(e.events, n)
    ensures !e.infos[t].all ==> forall n :: 0 <= n < 32 && Bit(e.infos[t].eventSet, n) ==> !Bit(e.events, n)
  {
    assert Inv(Fresh(flag, priority));
    hide Run, Satisfied, Ordered, Bit;
    RunKeeps(Fresh(flag, priority), steps, e);
    SatisfiedBits(e.infos[t], e.events);
  }
}
