/** Which server an echo reply belongs to, and when removing a server meanwhile
    makes no difference. */
module Attribution {
  import opened Words
  import opened Config
  import opened Monitoring
  import opened System
  import opened Invariants

  /** No pending ping is a full wrap of the 16-bit counter old. */
  predicate PendingRecent(st: State) {
    forall i :: 0 <= i < |st.recs| && st.recs[i].mon.pingPending ==> st.sends - st.recs[i].aux.sendNo < SEQ_WRAP
  }

  /** A whole number of counter wraps lies between two sends. */
  predicate WrapsApart(a: nat, b: nat) {
    (a - b) % SEQ_WRAP == 0
  }

  /** Exactly when two pending pings are confused: their sends lie whole wraps apart. */
  lemma {:induction false} CollisionIffWrapsApart(st: State, ops: seq<Op>, i: nat, j: nat)
    requires Boot(st) && GoodRun(ops)
    requires var recs := Run(st, ops).recs;
             i < |recs| && j < |recs| && recs[i].mon.pingPending && recs[j].mon.pingPending
    ensures var recs := Run(st, ops).recs;
            recs[i].mon.pingSeq == recs[j].mon.pingSeq <==> WrapsApart(recs[i].aux.sendNo, recs[j].aux.sendNo)
  {
    BootIsOk(st);
    RunKeeps(st, ops);
    CollisionIff(Run(st, ops), i, j);
  }

  lemma CollisionIff(st: State, i: nat, j: nat)
    requires Inv(st) && i < |st.recs| && j < |st.recs| && st.recs[i].mon.pingPending && st.recs[j].mon.pingPending
    ensures st.recs[i].mon.pingSeq == st.recs[j].mon.pingSeq <==>
            WrapsApart(st.recs[i].aux.sendNo, st.recs[j].aux.sendNo)
  {
    var a, b := st.recs[i], st.recs[j];
    assert RecOk(a, st.sends) && RecOk(b, st.sends);
    CongruentIff(a.aux.sendNo, b.aux.sendNo);
  }

  lemma CongruentIff(a: nat, b: nat)
    ensures a % SEQ_WRAP == b % SEQ_WRAP <==> WrapsApart(a, b)
  {
    var p, q := a / SEQ_WRAP, b / SEQ_WRAP;
    assert a - b == SEQ_WRAP * (p - q) + (a % SEQ_WRAP - b % SEQ_WRAP);
  }

  lemma CongruentNear(a: nat, b: nat)
    requires a % SEQ_WRAP == b % SEQ_WRAP && -SEQ_WRAP < a - b < SEQ_WRAP
    ensures a == b
  {
    var p, q := a / SEQ_WRAP, b / SEQ_WRAP;
    assert a - b == SEQ_WRAP * (p - q);
  }

  /** In every run from boot: while pending pings are recent, pending servers carry
      pairwise distinct sequence numbers, so a reply matches at most one of them,
      whatever address it comes from and even if addresses are shared. */
  lemma {:induction false} PendingAreDistinct(st: State, ops: seq<Op>, i: nat, j: nat, ip: Word, seqNo: Half)
    requires Boot(st) && GoodRun(ops) && PendingRecent(Run(st, ops))
    requires var recs := Run(st, ops).recs;
             i < |recs| && j < |recs| && i != j && recs[i].mon.pingPending && recs[j].mon.pingPending
    ensures var recs := Run(st, ops).recs;
            && recs[i].mon.pingSeq != recs[j].mon.pingSeq
            && !(Matches(recs[i].server, recs[i].mon, ip, seqNo) && Matches(recs[j].server, recs[j].mon, ip, seqNo))
  {
    BootIsOk(st);
    RunKeeps(st, ops);
    var now := Run(st, ops);
    var a, b := now.recs[i], now.recs[j];
    assert RecOk(a, now.sends) && RecOk(b, now.sends);
    if a.mon.pingSeq == b.mon.pingSeq {
      CongruentNear(a.aux.sendNo, b.aux.sendNo);
      assert false;
    }
  }

  /** A reply carrying the number of send `n`, itself less than a wrap old, marks up
      only a server whose pending ping is that very send. */
  lemma {:induction false} ReplyIsForItsPing(st: State, ops: seq<Op>, n: nat, ip: Word, i: nat)
    requires Boot(st) && GoodRun(ops) && PendingRecent(Run(st, ops))
    requires 0 < n <= Run(st, ops).sends < n + SEQ_WRAP
    requires i < |Run(st, ops).recs|
    ensures var r := Run(st, ops).recs[i];
            Matches(r.server, r.mon, ip, n % SEQ_WRAP) <==>
            r.server.ip != 0 && r.server.ip == ip && r.mon.pingPending && r.aux.sendNo == n
  {
    BootIsOk(st);
    RunKeeps(st, ops);
    var now := Run(st, ops);
    var r := now.recs[i];
    assert RecOk(r, now.sends);
    if Matches(r.server, r.mon, ip, n % SEQ_WRAP) {
      CongruentNear(r.aux.sendNo, n);
    }
  }

  /** So the late reply to a superseded ping changes nothing at all. */
  lemma {:induction false} LateReplyIgnored(st: State, ops: seq<Op>, n: nat, ip: Word)
    requires Boot(st) && GoodRun(ops) && PendingRecent(Run(st, ops))
    requires 0 < n <= Run(st, ops).sends < n + SEQ_WRAP
    requires forall i :: 0 <= i < |Run(st, ops).recs| ==> Run(st, ops).recs[i].aux.sendNo != n
    ensures Step(Run(st, ops), Reply(ip, n % SEQ_WRAP)) == Run(st, ops)
  {
    var i := FirstMatch(Run(st, ops).recs, ip, n % SEQ_WRAP);
    if i < |Run(st, ops).recs| {
      ReplyIsForItsPing(st, ops, n, ip, i);
    }
  }

  /** The server a reply matches comes out up, awaiting nothing and in no campaign. */
  lemma ReplySettles(st: State, ip: Word, seqNo: Half)
    requires FirstMatch(st.recs, ip, seqNo) < |st.recs|
    ensures var m, st' := FirstMatch(st.recs, ip, seqNo), Step(st, Reply(ip, seqNo));
            && |st'.recs| == |st.recs|
            && (forall j :: 0 <= j < |st.recs| && j != m ==> st'.recs[j] == st.recs[j])
            && st'.recs[m].server == st.recs[m].server
            && st'.recs[m].mon.up && !st'.recs[m].mon.pingPending && !st'.recs[m].mon.wolActive
            && st'.recs[m].aux.trace == st.recs[m].aux.trace + if st.recs[m].mon.up then [] else [Up]
  {
    var m := FirstMatch(st.recs, ip, seqNo);
    AnswerIsQuiet(st, m);
    var c := Answer(CellAt(st, m), st.recs[m].server);
    assert Notices(c.log) == if st.recs[m].mon.up then [] else [Up];
  }

  /** So a reply that arrives twice counts once. */
  lemma {:induction false} DuplicateReplyIgnored(st: State, ops: seq<Op>, ip: Word, seqNo: Half)
    requires Boot(st) && GoodRun(ops) && PendingRecent(Run(st, ops))
    ensures var once := Step(Run(st, ops), Reply(ip, seqNo)); Step(once, Reply(ip, seqNo)) == once
  {
    var now := Run(st, ops);
    var m := FirstMatch(now.recs, ip, seqNo);
    if m < |now.recs| {
      ReplySettles(now, ip, seqNo);
      var once := Step(now, Reply(ip, seqNo));
      forall j | 0 <= j < |once.recs| ensures !Matches(once.recs[j].server, once.recs[j].mon, ip, seqNo) {
        if j != m && now.recs[j].mon.pingPending {
          PendingAreDistinct(st, ops, j, m, ip, seqNo);
        }
      }
    }
  }

  // --- Removal and replies ---

  /** Answering reads only the slot's own record and the shared counter. */
  lemma AnswerElsewhere(st: State, m: nat, recs: seq<Rec>, e: nat)
    requires m < |st.recs| && e < |recs| && recs[e] == st.recs[m]
    ensures var a := Settle(st, m, Answer(CellAt(st, m), st.recs[m].server));
            var moved := st.(recs := recs);
            Settle(moved, e, Answer(CellAt(moved, e), recs[e].server)) == a.(recs := recs[e := a.recs[m]])
  {
  }

  /** Answering sends nothing, and tells of nothing but a server coming up. */
  lemma AnswerIsQuiet(st: State, m: nat)
    requires m < |st.recs|
    ensures var a := Settle(st, m, Answer(CellAt(st, m), st.recs[m].server));
            && a == st.(recs := a.recs, log := a.log)
            && a.log == st.log + if st.recs[m].mon.up then [] else [Event(NameOf(st.recs[m].server), Up)]
  {
    var c := Answer(CellAt(st, m), st.recs[m].server);
    if !st.recs[m].mon.up {
      var e := Event(NameOf(st.recs[m].server), Up);
      assert c.log == [e];
      assert [e][1..] == [];
      assert Numbered([], st.sends, st.recs[m].aux.sendNo) == (st.sends, st.recs[m].aux.sendNo);
    }
  }

  lemma FirstMatchIs(recs: seq<Rec>, ip: Word, seqNo: Half, i: nat)
    requires i <= |recs| && (i < |recs| ==> Matches(recs[i].server, recs[i].mon, ip, seqNo))
    requires forall j :: 0 <= j < i ==> !Matches(recs[j].server, recs[j].mon, ip, seqNo)
    ensures FirstMatch(recs, ip, seqNo) == i
  {
    var m := FirstMatch(recs, ip, seqNo);
    if m < i {
      assert false;
    } else if i < m {
      assert false;
    }
  }

  lemma FirstMatchSurvives(recs: seq<Rec>, ip: Word, seqNo: Half, b: nat)
    requires b < |recs| && FirstMatch(recs, ip, seqNo) != b
    ensures FirstMatch(Without(recs, b), ip, seqNo) == IndexAfterRemoval(FirstMatch(recs, ip, seqNo), b)
  {
    var kept, e := Without(recs, b), IndexAfterRemoval(FirstMatch(recs, ip, seqNo), b);
    forall j | 0 <= j < |kept| ensures kept[j] == recs[if j < b then j else j + 1] {}
    FirstMatchIs(kept, ip, seqNo, e);
  }

  lemma FindIgnoresMonitors(recs: seq<Rec>, name: string, m: nat, r: Rec)
    requires m < |recs| && r.server == recs[m].server
    ensures Find(recs[m := r], name) == Find(recs, name)
  {
    var i, j := Find(recs, name), Find(recs[m := r], name);
    assert forall k :: 0 <= k < |recs| ==> Named(recs[m := r][k].server, name) == Named(recs[k].server, name);
    if i < j {
      assert false;
    } else if j < i {
      assert false;
    }
  }

  /** Unless the reply is for the server being removed, handling the reply and
      removing the server commute: same tables, same log. */
  lemma RemovalCommutes(st: State, name: string, ip: Word, seqNo: Half)
    requires FirstMatch(st.recs, ip, seqNo) == |st.recs| || FirstMatch(st.recs, ip, seqNo) != Find(st.recs, name)
    ensures Step(Step(st, Reply(ip, seqNo)), Remove(name)) == Step(Step(st, Remove(name)), Reply(ip, seqNo))
  {
    var b, m := Find(st.recs, name), FirstMatch(st.recs, ip, seqNo);
    if m == |st.recs| {
      if b < |st.recs| {
        FirstMatchSurvives(st.recs, ip, seqNo, b);
      }
    } else {
      var st1 := Settle(st, m, Answer(CellAt(st, m), st.recs[m].server));
      assert Step(st, Reply(ip, seqNo)) == st1;
      FindIgnoresMonitors(st.recs, name, m, st1.recs[m]);
      if b < |st.recs| {
        RemovalCommutesBothFound(st, b, m, ip, seqNo);
      }
    }
  }

  lemma RemovalCommutesBothFound(st: State, b: nat, m: nat, ip: Word, seqNo: Half)
    requires b < |st.recs| && m < |st.recs| && m != b && m == FirstMatch(st.recs, ip, seqNo)
    ensures var st1 := Settle(st, m, Answer(CellAt(st, m), st.recs[m].server));
            ReplyTo(st.(recs := Without(st.recs, b)), ip, seqNo) == st1.(recs := Without(st1.recs, b))
  {
    var st1 := Settle(st, m, Answer(CellAt(st, m), st.recs[m].server));
    FirstMatchSurvives(st.recs, ip, seqNo, b);
    var e := IndexAfterRemoval(m, b);
    assert Without(st.recs, b)[e] == st.recs[m];
    AnswerElsewhere(st, m, Without(st.recs, b), e);
    assert Without(st1.recs, b) == Without(st.recs, b)[e := st1.recs[m]];
  }

  /** Answering a record and then removing it leaves the other records and its up notice. */
  lemma AnswererGoes(st: State, name: string, ip: Word, seqNo: Half)
    requires var m := FirstMatch(st.recs, ip, seqNo); m < |st.recs| && m == Find(st.recs, name)
    ensures var m := Find(st.recs, name);
            Step(Step(st, Reply(ip, seqNo)), Remove(name)) ==
            st.(recs := Without(st.recs, m),
                log := st.log + if st.recs[m].mon.up then [] else [Event(NameOf(st.recs[m].server), Up)])
  {
    var m := FirstMatch(st.recs, ip, seqNo);
    var st1 := Step(st, Reply(ip, seqNo));
    FindIgnoresMonitors(st.recs, name, m, st1.recs[m]);
    AnswerIsQuiet(st, m);
    assert Without(st1.recs, m) == Without(st.recs, m);
  }

  /** When the reply is for the removed server and for no other, the tables agree
      still; only the up notice tells the two orders apart. */
  lemma RemovalOfAnswerer(st: State, name: string, ip: Word, seqNo: Half)
    requires var m := FirstMatch(st.recs, ip, seqNo);
             && m < |st.recs| && m == Find(st.recs, name)
             && forall j :: m < j < |st.recs| ==> !Matches(st.recs[j].server, st.recs[j].mon, ip, seqNo)
    ensures var a := Step(Step(st, Reply(ip, seqNo)), Remove(name));
            var b := Step(Step(st, Remove(name)), Reply(ip, seqNo));
            var m := Find(st.recs, name);
            && a.recs == b.recs == Without(st.recs, m)
            && b.log == st.log
            && a == b.(log := st.log + if st.recs[m].mon.up then [] else [Event(NameOf(st.recs[m].server), Up)])
  {
    var m := FirstMatch(st.recs, ip, seqNo);
    AnswererGoes(st, name, ip, seqNo);
    var recs' := Without(st.recs, m);
    forall j | 0 <= j < |recs'| ensures recs'[j] == st.recs[if j < m then j else j + 1] {}
    var k := FirstMatch(recs', ip, seqNo);
    assert k == |recs'|;
  }

  /** Otherwise the up notice, or a later record that takes the reply, tells the orders apart. */
  lemma AnswererDiffers(st: State, name: string, ip: Word, seqNo: Half)
    requires var m := FirstMatch(st.recs, ip, seqNo);
             && m < |st.recs| && m == Find(st.recs, name)
             && exists j :: m < j < |st.recs| && Matches(st.recs[j].server, st.recs[j].mon, ip, seqNo)
    ensures Step(Step(st, Reply(ip, seqNo)), Remove(name)).recs == Without(st.recs, Find(st.recs, name))
    ensures Step(Step(st, Remove(name)), Reply(ip, seqNo)).recs != Without(st.recs, Find(st.recs, name))
  {
    var m := FirstMatch(st.recs, ip, seqNo);
    AnswererGoes(st, name, ip, seqNo);
    var j :| m < j < |st.recs| && Matches(st.recs[j].server, st.recs[j].mon, ip, seqNo);
    var after := st.(recs := Without(st.recs, m));
    assert after.recs[j - 1] == st.recs[j];
    assert Step(st, Remove(name)) == after;
    ReplyTaken(after, ip, seqNo, j - 1);
  }

  /** A reply that some record matches changes the table. */
  lemma ReplyTaken(st: State, ip: Word, seqNo: Half, j: nat)
    requires j < |st.recs| && Matches(st.recs[j].server, st.recs[j].mon, ip, seqNo)
    ensures Step(st, Reply(ip, seqNo)).recs != st.recs
  {
    var k := FirstMatch(st.recs, ip, seqNo);
    assert k <= j;
    ReplySettles(st, ip, seqNo);
  }

  /** In every state, handling a reply and removing a server commute exactly if the reply is not
      for that server, or the server is up already and no later record takes the reply over. */
  lemma RemovalCommutesIff(st: State, name: string, ip: Word, seqNo: Half)
    ensures var m, b := FirstMatch(st.recs, ip, seqNo), Find(st.recs, name);
            Step(Step(st, Reply(ip, seqNo)), Remove(name)) == Step(Step(st, Remove(name)), Reply(ip, seqNo)) <==>
            || m == |st.recs| || m != b
            || (st.recs[m].mon.up && NoneAfter(st.recs, m, ip, seqNo))
  {
    var m, b := FirstMatch(st.recs, ip, seqNo), Find(st.recs, name);
    if m == |st.recs| || m != b {
      RemovalCommutes(st, name, ip, seqNo);
    } else if NoneAfter(st.recs, m, ip, seqNo) {
      RemovalOfAnswerer(st, name, ip, seqNo);
      assert st.log + [] == st.log;
    } else {
      AnswererDiffers(st, name, ip, seqNo);
    }
  }

  /** No record after `m` matches the reply. */
  predicate NoneAfter(recs: seq<Rec>, m: nat, ip: Word, seqNo: Half) {
    forall j :: m < j < |recs| ==> !Matches(recs[j].server, recs[j].mon, ip, seqNo)
  }

  /** In a run whose pending pings are recent no record can take over: there the tables always
      agree, and an answerer that is up already commutes. */
  lemma {:induction false} RecentRemovals(st: State, ops: seq<Op>, name: string, ip: Word, seqNo: Half)
    requires Boot(st) && GoodRun(ops) && PendingRecent(Run(st, ops))
    ensures var now := Run(st, ops);
            Step(Step(now, Reply(ip, seqNo)), Remove(name)).recs == Step(Step(now, Remove(name)), Reply(ip, seqNo)).recs
  {
    var now := Run(st, ops);
    var m := FirstMatch(now.recs, ip, seqNo);
    if m == |now.recs| || m != Find(now.recs, name) {
      RemovalCommutes(now, name, ip, seqNo);
    } else {
      forall j | m < j < |now.recs| ensures !Matches(now.recs[j].server, now.recs[j].mon, ip, seqNo) {
        if now.recs[j].mon.pingPending {
          PendingAreDistinct(st, ops, j, m, ip, seqNo);
        }
      }
      RemovalOfAnswerer(now, name, ip, seqNo);
    }
  }
}
