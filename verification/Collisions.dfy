/** A run in which two pending pings carry the same sequence number. */
module Collisions {
  import opened Words
  import opened CStrings
  import opened Config
  import opened Monitoring
  import opened System
  import opened Invariants
  import opened Attribution

  const RADIO := Radio(true, true, 0)

  function Fresh(name: string): Rec {
    NewRec(name, ZERO_MAC, 1)
  }

  /** Two servers that share an address. */
  function Pair(): State {
    State([Fresh("a"), Fresh("b")], [], 0, 0, true, false, 0, [])
  }

  /** One wake of the first, then `n` of the second. */
  function WakesOf(n: nat): (ops: seq<Op>)
    ensures |ops| == n + 1 && GoodRun(ops)
  {
    [Wake(0, RADIO)] + seq(n, _ => Wake(1, RADIO))
  }

  /** A record that waits, down, for the reply to send `n`. */
  predicate Waits(r: Rec, name: string, n: nat) {
    && r.server == Fresh(name).server && !r.mon.up && r.mon.pingPending
    && r.mon.pingSeq == n % SEQ_WRAP && r.aux.sendNo == n
  }

  predicate Reached(st: State, n: nat) {
    && |st.recs| == 2 && st.ready && st.seqNo == (n + 1) % SEQ_WRAP && st.sends == n + 1
    && Waits(st.recs[0], "a", 1)
    && st.recs[1].server == Fresh("b").server
    && (n > 0 ==> Waits(st.recs[1], "b", n + 1))
  }

  /** A wake of a server with an address sends one ping and waits for it. */
  lemma WakeWaits(st: State, i: nat, name: string)
    requires i < |st.recs| && st.recs[i].server == Fresh(name).server
    requires st.ready && st.seqNo == st.sends % SEQ_WRAP
    ensures var st' := Step(st, Wake(i, RADIO));
            && |st'.recs| == |st.recs| && st'.ready && st'.sends == st.sends + 1
            && st'.seqNo == (st.sends + 1) % SEQ_WRAP
            && Waits(st'.recs[i], name, st.sends + 1)
            && forall j :: 0 <= j < |st.recs| && j != i ==> st'.recs[j] == st.recs[j]
  {
    var s := st.recs[i].server;
    var magic, ping := Event(NameOf(s), Magic(true)), Event(NameOf(s), Ping(Sent));
    var c := WakeMonitored(CellAt(st, i), s, st.ready, RADIO);
    assert c.log == [magic, ping];
    NextHalfIs(st.sends);
    TwoNumbered(magic, ping, st.sends, st.recs[i].aux.sendNo);
  }

  lemma TwoNumbered(magic: Event, ping: Event, sends: nat, last: nat)
    requires magic.what == Magic(true) && ping.what == Ping(Sent)
    ensures Numbered([magic, ping], sends, last) == (sends + 1, sends + 1)
  {
    assert [magic, ping][1..] == [ping] && [ping][1..] == [];
    assert Numbered([], sends + 1, sends + 1) == (sends + 1, sends + 1);
    assert Numbered([ping], sends, last) == (sends + 1, sends + 1);
  }

  lemma {:induction false} WakesReach(n: nat)
    ensures Reached(Run(Pair(), WakesOf(n)), n)
  {
    var ops := WakesOf(n);
    if n == 0 {
      assert ops[..0] == [] && ops[0] == Wake(0, RADIO);
      WakeWaits(Pair(), 0, "a");
    } else {
      WakesReach(n - 1);
      assert ops[..n] == WakesOf(n - 1) && ops[n] == Wake(1, RADIO);
      WakeWaits(Run(Pair(), ops[..n]), 1, "b");
    }
  }

  lemma PairBoots()
    ensures Boot(Pair())
    ensures NameOf(Fresh("a").server) == "a" && NameOf(Fresh("b").server) == "b"
  {
    StoredNameFits("a");
    StoredNameFits("b");
    assert "a"[..1] == "a" && "b"[..1] == "b" && "a"[0] != "b"[0];
    var servers := seq(2, i requires 0 <= i < 2 => Pair().recs[i].server);
    assert servers[0] == Fresh("a").server && servers[1] == Fresh("b").server;
  }

  /** After one wake of "a" and 65536 of "b" both pings are pending with number 1, the reply to
      either matches both records, and answering it and removing "a" do not commute: in one
      order "a" takes the reply and goes, in the other "b" takes it. */
  lemma CollisionHappens()
    ensures var now := Run(Pair(), WakesOf(SEQ_WRAP));
            && Boot(Pair()) && |now.recs| == 2
            && (forall i :: 0 <= i < 2 ==> now.recs[i].mon.pingPending && now.recs[i].mon.pingSeq == 1)
            && (forall i :: 0 <= i < 2 ==> Matches(now.recs[i].server, now.recs[i].mon, 1, 1))
            && !PendingRecent(now)
            && Step(Step(now, Reply(1, 1)), Remove("a")).recs == now.recs[1..]
            && Step(Step(now, Remove("a")), Reply(1, 1)).recs != now.recs[1..]
  {
    PairBoots();
    WakesReach(SEQ_WRAP);
    var now := Run(Pair(), WakesOf(SEQ_WRAP));
    BothMatch(now);
    FirstOfBoth(now);
    AnswererDiffers(now, "a", 1, 1);
    assert Without(now.recs, 0) == now.recs[1..];
  }

  lemma BothMatch(st: State)
    requires Reached(st, SEQ_WRAP)
    ensures forall i :: 0 <= i < 2 ==> Matches(st.recs[i].server, st.recs[i].mon, 1, 1) && st.recs[i].mon.pingSeq == 1
    ensures !PendingRecent(st)
  {
    assert st.sends - st.recs[0].aux.sendNo >= SEQ_WRAP;
  }

  lemma FirstOfBoth(st: State)
    requires Reached(st, SEQ_WRAP) && Matches(st.recs[0].server, st.recs[0].mon, 1, 1)
    ensures FirstMatch(st.recs, 1, 1) == 0 == Find(st.recs, "a")
  {
    PairBoots();
  }
}
