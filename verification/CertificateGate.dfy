/** The signer's own gate, and the certificate read that must leave no trace, in every interleaving. */
module CertificateGate {
  import opened DeletionStatus
  import opened KeyStates
  import opened DeletionSteps
  import opened DeletionSafety

  // ----- Every signature follows a read that passed the gate -----

  predicate Passes(e: Event, tid: nat) {
    && e.ClaimsRead? && e.tid == tid && (e.key.Shredded? || e.key.Deleted?)
    && (e.status.CascadeComplete? || e.status.CertificateIssued?)
  }

  ghost predicate PassedBy(log: seq<Event>, end: nat, tid: nat)
    requires end <= |log|
  {
    exists i :: 0 <= i < end && Passes(log[i], tid)
  }

  predicate PastGate(pc: Pc) {
    pc.Reserve? || pc.Sign? || pc.Commit? || pc.Store? || pc.GetSign?
  }

  ghost predicate Gated(s: State) {
    && (forall i :: 0 <= i < |s.log| && s.log[i].Signed? ==> PassedBy(s.log, i, s.log[i].tid))
    && (forall t :: 0 <= t < |s.threads| && PastGate(s.threads[t].pc) ==> PassedBy(s.log, |s.log|, t))
  }

  lemma PassedStays(log: seq<Event>, more: seq<Event>, end: nat, end': nat, tid: nat)
    requires log <= more && end <= |log| && end <= end' <= |more|
    requires PassedBy(log, end, tid)
    ensures PassedBy(more, end', tid)
  {
  }

  /** A thread is past the gate after its step only if it was before, or has just read claims that pass. */
  lemma EffectGate(m: Shared, tid: nat, t: Thread, c: Choice)
    ensures var e := StepOf(m, tid, t, c);
      PastGate(e.thread.pc) && !PastGate(t.pc) ==> e.event.Just? && Passes(e.event.value, tid)
    ensures var e := StepOf(m, tid, t, c);
      e.event.Just? && e.event.value.Signed? ==> PastGate(t.pc) && e.event.value.tid == tid
  {
  }

  lemma ApplyGated(s: State, tid: nat, e: Effect)
    requires Gated(s) && tid < |s.threads|
    requires PastGate(e.thread.pc) && !PastGate(s.threads[tid].pc) ==> e.event.Just? && Passes(e.event.value, tid)
    requires e.event.Just? && e.event.value.Signed? ==> PastGate(s.threads[tid].pc) && e.event.value.tid == tid
    ensures Gated(Apply(s, tid, e))
  {
    var n := Apply(s, tid, e);
    forall i | 0 <= i < |n.log| && n.log[i].Signed?
      ensures PassedBy(n.log, i, n.log[i].tid)
    {
      if i < |s.log| {
        PassedStays(s.log, n.log, i, i, n.log[i].tid);
      } else {
        PassedStays(s.log, n.log, |s.log|, i, tid);
      }
    }
    forall t | 0 <= t < |n.threads| && PastGate(n.threads[t].pc)
      ensures PassedBy(n.log, |n.log|, t)
    {
      if t < |s.threads| && PastGate(s.threads[t].pc) {
        PassedStays(s.log, n.log, |s.log|, |n.log|, t);
      } else {
        assert Passes(n.log[|s.log|], t);
      }
    }
  }

  lemma StepGated(s: State, a: Action)
    requires Gated(s)
    ensures Gated(Next(s, a))
  {
    if a.Step? && a.tid < |s.threads| {
      EffectGate(s.shared, a.tid, s.threads[a.tid], a.choice);
      ApplyGated(s, a.tid, StepOf(s.shared, a.tid, s.threads[a.tid], a.choice));
    }
  }

  /** Every certificate signed, chained or fallback, was preceded by its own signer's read of a destroyed key. */
  lemma {:induction false} SignaturesFollowTheGate(key: KeyState, head: nat, schedule: seq<Action>)
    ensures Gated(Run(Created(key, head), schedule))
  {
    if schedule != [] {
      SignaturesFollowTheGate(key, head, schedule[..|schedule| - 1]);
      StepGated(Run(Created(key, head), schedule[..|schedule| - 1]), schedule[|schedule| - 1]);
    }
  }

  // ----- What those reads saw was really there -----

  /** Some moment of the run, with at most `end` events logged by then, had this key state. */
  ghost predicate KeyWas(s: State, schedule: seq<Action>, end: nat, key: KeyState) {
    exists k :: 0 <= k <= |schedule| && KeyAt(Run(s, schedule[..k]), end, key)
  }

  predicate KeyAt(m: State, end: nat, key: KeyState) {
    m.shared.key == key && |m.log| <= end
  }

  ghost predicate StatusWas(s: State, schedule: seq<Action>, end: nat, status: Status) {
    exists k :: 0 <= k <= |schedule| && StatusAt(Run(s, schedule[..k]), end, status)
  }

  predicate StatusAt(m: State, end: nat, status: Status) {
    m.shared.doc.status == status && |m.log| <= end
  }

  predicate CarriesKey(pc: Pc, key: KeyState) {
    (pc.ReadRequest? || pc.GetClaimsRequest?) && pc.key == key
  }

  /** What the `i`th event reports about key and status was so at a moment before it was logged. */
  ghost predicate ReadIsTrue(s: State, schedule: seq<Action>, i: nat, e: Event) {
    e.ClaimsRead? ==> KeyWas(s, schedule, i, e.key) && StatusWas(s, schedule, i, e.status)
  }

  ghost predicate Truthful(s: State, schedule: seq<Action>) {
    var now := Run(s, schedule);
    && (forall i :: 0 <= i < |now.log| ==> ReadIsTrue(s, schedule, i, now.log[i]))
    && (forall t, k :: 0 <= t < |now.threads| && CarriesKey(now.threads[t].pc, k) ==>
          KeyWas(s, schedule, |now.log|, k))
  }

  lemma KeyWasStays(s: State, schedule: seq<Action>, more: seq<Action>, end: nat, end': nat, key: KeyState)
    requires schedule <= more && end <= end' && KeyWas(s, schedule, end, key)
    ensures KeyWas(s, more, end', key)
  {
    var k :| 0 <= k <= |schedule| && KeyAt(Run(s, schedule[..k]), end, key);
    assert more[..k] == schedule[..k];
    assert KeyAt(Run(s, more[..k]), end', key);
  }

  lemma ReadStaysTrue(s: State, schedule: seq<Action>, more: seq<Action>, i: nat, e: Event)
    requires schedule <= more && ReadIsTrue(s, schedule, i, e)
    ensures ReadIsTrue(s, more, i, e)
  {
    if e.ClaimsRead? {
      KeyWasStays(s, schedule, more, i, i, e.key);
      var k :| 0 <= k <= |schedule| && StatusAt(Run(s, schedule[..k]), i, e.status);
      assert more[..k] == schedule[..k];
      assert StatusAt(Run(s, more[..k]), i, e.status);
    }
  }

  lemma NowWas(s: State, schedule: seq<Action>)
    ensures KeyWas(s, schedule, |Run(s, schedule).log|, Run(s, schedule).shared.key)
    ensures StatusWas(s, schedule, |Run(s, schedule).log|, Run(s, schedule).shared.doc.status)
  {
    assert schedule[..|schedule|] == schedule;
    assert KeyAt(Run(s, schedule[..|schedule|]), |Run(s, schedule).log|, Run(s, schedule).shared.key);
    assert StatusAt(Run(s, schedule[..|schedule|]), |Run(s, schedule).log|, Run(s, schedule).shared.doc.status);
  }

  /** A claims read is logged, and a key is carried, only with the values the step found. */
  lemma EffectReads(m: Shared, tid: nat, t: Thread, c: Choice)
    ensures var e := StepOf(m, tid, t, c);
      e.event.Just? && e.event.value.ClaimsRead? ==>
        CarriesKey(t.pc, e.event.value.key) && e.event.value.status == m.doc.status
    ensures forall k :: CarriesKey(StepOf(m, tid, t, c).thread.pc, k) ==> k == m.key
  {
  }

  /** One more step: earlier reads stay true, and a read logged now reports what is there now. */
  lemma StepTruthful(s0: State, before: seq<Action>, a: Action)
    requires Truthful(s0, before)
    ensures Truthful(s0, before + [a])
  {
    var schedule := before + [a];
    assert schedule[..|schedule| - 1] == before;
    var s, n := Run(s0, before), Run(s0, schedule);
    StepLogGrows(s, a);
    NowWas(s0, before);
    KeyWasStays(s0, before, schedule, |s.log|, |s.log|, s.shared.key);
    if a.Step? && a.tid < |s.threads| {
      EffectReads(s.shared, a.tid, s.threads[a.tid], a.choice);
    }
    forall i | 0 <= i < |n.log| ensures ReadIsTrue(s0, schedule, i, n.log[i]) {
      if i < |s.log| {
        ReadStaysTrue(s0, before, schedule, i, s.log[i]);
      } else {
        ReadStaysTrue(s0, before, schedule, i, n.log[i]);
      }
    }
    forall t, k | 0 <= t < |n.threads| && CarriesKey(n.threads[t].pc, k)
      ensures KeyWas(s0, schedule, |n.log|, k)
    {
      if t < |s.threads| && n.threads[t] == s.threads[t] {
        KeyWasStays(s0, before, schedule, |s.log|, |n.log|, k);
      } else {
        KeyWasStays(s0, before, schedule, |s.log|, |n.log|, s.shared.key);
      }
    }
  }

  /** Key and status of every claims read are values the two documents really had before it was made. */
  lemma {:induction false} ClaimsReadsAreTrue(key: KeyState, head: nat, schedule: seq<Action>)
    ensures Truthful(Created(key, head), schedule)
  {
    if schedule != [] {
      var before, a := schedule[..|schedule| - 1], schedule[|schedule| - 1];
      ClaimsReadsAreTrue(key, head, before);
      StepTruthful(Created(key, head), before, a);
      assert before + [a] == schedule;
    }
  }

  /**
   * So before each signature there was a moment at which its key really had been destroyed, and one at
   * which its request really was completed: both before its own signer's read, which precedes it.
   */
  lemma {:induction false} EverySignatureSawADestroyedKey(key: KeyState, head: nat, schedule: seq<Action>, i: nat)
    requires i < |Run(Created(key, head), schedule).log|
    requires Run(Created(key, head), schedule).log[i].Signed?
    ensures var s0 := Created(key, head);
      var log := Run(s0, schedule).log;
      exists j :: 0 <= j < i && Passes(log[j], log[i].tid)
        && KeyWas(s0, schedule, j, log[j].key) && StatusWas(s0, schedule, j, log[j].status)
  {
    SignaturesFollowTheGate(key, head, schedule);
    ClaimsReadsAreTrue(key, head, schedule);
    var log := Run(Created(key, head), schedule).log;
    var j :| 0 <= j < i && Passes(log[j], log[i].tid);
    assert ReadIsTrue(Created(key, head), schedule, j, log[j]);
  }

  // ----- A certificate read changes nothing -----

  predicate ReaderStep(s: State, a: Action) {
    a.Step? && a.tid < |s.threads| && s.threads[a.tid].caller.Reader?
  }

  /** The run without the steps of its certificate readers. */
  function Erase(s: State, schedule: seq<Action>): seq<Action> {
    if schedule == [] then []
    else
      var before, a := schedule[..|schedule| - 1], schedule[|schedule| - 1];
      Erase(s, before) + if ReaderStep(Run(s, before), a) then [] else [a]
  }

  /** The same documents and chain, and the same threads apart from readers' own positions. */
  ghost predicate SameButReaders(s: State, r: State) {
    && s.shared == r.shared
    && |s.threads| == |r.threads|
    && (forall i :: 0 <= i < |s.threads| ==> s.threads[i].caller == r.threads[i].caller)
    && (forall i :: 0 <= i < |s.threads| && !s.threads[i].caller.Reader? ==> s.threads[i] == r.threads[i])
  }

  lemma EffectOfReader(m: Shared, tid: nat, t: Thread, c: Choice)
    requires WellPlaced(t) && t.caller.Reader?
    ensures var e := StepOf(m, tid, t, c); e.shared == m && !e.dispatches && e.thread.caller.Reader?
  {
  }

  /** A step reads nothing but the shared documents and its own thread, and never becomes a reader. */
  lemma EffectOfOther(m: Shared, tid: nat, t: Thread, c: Choice)
    requires !t.caller.Reader?
    ensures !StepOf(m, tid, t, c).thread.caller.Reader?
  {
  }

  lemma SameNext(s: State, r: State, a: Action)
    requires SameButReaders(s, r) && !ReaderStep(s, a)
    ensures SameButReaders(Next(s, a), Next(r, a))
  {
    if a.Step? && a.tid < |s.threads| {
      EffectOfOther(s.shared, a.tid, s.threads[a.tid], a.choice);
    }
  }

  /**
   * However many certificate reads interleave, and whatever they sign on the fallback path,
   * the request, the chain, the key and every other call end up as if no reader had run.
   */
  lemma {:induction false} ReadersLeaveNoTrace(key: KeyState, head: nat, schedule: seq<Action>)
    ensures var s0 := Created(key, head);
      SameButReaders(Run(s0, schedule), Run(s0, Erase(s0, schedule)))
  {
    var s0 := Created(key, head);
    if schedule != [] {
      var before, a := schedule[..|schedule| - 1], schedule[|schedule| - 1];
      ReadersLeaveNoTrace(key, head, before);
      RunPlaced(s0, before);
      var s, r := Run(s0, before), Run(s0, Erase(s0, before));
      if ReaderStep(s, a) {
        assert Erase(s0, schedule) == Erase(s0, before);
        EffectOfReader(s.shared, a.tid, s.threads[a.tid], a.choice);
      } else {
        var kept := Erase(s0, before) + [a];
        assert kept[..|kept| - 1] == Erase(s0, before);
        SameNext(s, r, a);
      }
    }
  }

  // ----- What a certificate read answers with -----

  /**
   * Once a reader has read the key and reads the request: it is refused unless the key is destroyed and
   * the request completed, is given the stored certificate exactly if the request is issued and has one,
   * and only otherwise goes on to have one signed.
   */
  lemma ReaderDecides(m: Shared, tid: nat, t: Thread, c: Choice)
    requires t.pc.GetRequest?
    ensures var e := StepOf(m, tid, t, c);
      var destroyed := t.pc.key.Shredded? || t.pc.key.Deleted?;
      var stored := m.doc.status.CertificateIssued? && m.doc.stored;
      && (e.thread.pc == Done(true) <==> destroyed && stored)
      && (e.thread.pc == GetClaimsKey <==>
            destroyed && !stored && (m.doc.status.CascadeComplete? || m.doc.status.CertificateIssued?))
      && (e.thread.pc == Done(true) || e.thread.pc == GetClaimsKey || e.thread.pc == Done(false))
      && e.shared == m && e.event == Nothing
  {
  }
}
