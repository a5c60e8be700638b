/** Equivocation detection: what the deny list and its proofs say about the nodes seen. */
module DenyList {
  import opened Dag

  datatype Proof = Proof(origin: Text, tick: nat, hashA: Hash, hashB: Hash)

  /** Denied origins, proofs in order of detection, and the first (data hash, node hash) seen at each clock entry. */
  datatype Watch = Watch(denied: set<Text>, proofs: seq<Proof>, ticks: map<(Text, nat), (Hash, Hash)>)

  /**
   * What one call sees of a node: its clock, its data hash and its own hash. The call does not look at `author`, the
   * origin that made the node.
   */
  datatype Sighting = Sighting(author: Text, clock: Clock, data: Hash, hash: Hash)

  const Unsuspecting := Watch({}, [], map[])

  /** The entry belongs to an origin not denied yet and was first seen with other data. */
  predicate Conflicting(w: Watch, data: Hash, e: (Text, nat)) {
    e.0 !in w.denied && e in w.ticks && w.ticks[e].0 != data
  }

  function Deny(w: Watch, e: (Text, nat), hash: Hash): Watch
    requires e in w.ticks
  {
    Watch(w.denied + {e.0}, w.proofs + [Proof(e.0, e.1, w.ticks[e].1, hash)], w.ticks)
  }

  function Record(w: Watch, e: (Text, nat), data: Hash, hash: Hash): Watch {
    if e.0 in w.denied || e in w.ticks then w else w.(ticks := w.ticks[e := (data, hash)])
  }

  /** Go through the clock entries in order; stop at the first conflict. */
  function Checked(w: Watch, clock: Clock, data: Hash, hash: Hash): Watch
    decreases |clock|
  {
    if clock == [] then w
    else if Conflicting(w, data, clock[0]) then Deny(w, clock[0], hash)
    else Checked(Record(w, clock[0], data, hash), clock[1..], data, hash)
  }

  function After(ss: seq<Sighting>): Watch {
    if ss == [] then Unsuspecting else
    var s := ss[|ss| - 1];
    Checked(After(ss[..|ss| - 1]), s.clock, s.data, s.hash)
  }

  /** The index of the first conflicting entry, or the clock's length. */
  function FirstConflict(w: Watch, clock: Clock, data: Hash): (k: nat)
    ensures k <= |clock| && (k < |clock| ==> Conflicting(w, data, clock[k]))
    ensures forall i :: 0 <= i < k ==> !Conflicting(w, data, clock[i])
  {
    if clock == [] || Conflicting(w, data, clock[0]) then 0 else 1 + FirstConflict(w, clock[1..], data)
  }

  /** Entries recorded by a call: those of its first `k` that no denied origin owns. */
  predicate Noted(w: Watch, clock: Clock, k: nat, e: (Text, nat))
    requires k <= |clock|
  {
    e in clock[..k] && e.0 !in w.denied
  }

  /** One call: deny at most the first conflicting origin, with its proof, and record only entries before it. */
  ghost predicate Effect(w: Watch, clock: Clock, data: Hash, hash: Hash, w': Watch) {
    var k := FirstConflict(w, clock, data);
    && w'.denied == w.denied + (if k < |clock| then {clock[k].0} else {})
    && w'.proofs == w.proofs +
        (if k < |clock| then [Proof(clock[k].0, clock[k].1, w.ticks[clock[k]].1, hash)] else [])
    && (forall e :: e in w'.ticks <==> e in w.ticks || Noted(w, clock, k, e))
    && (forall e :: e in w'.ticks ==> w'.ticks[e] == if e in w.ticks then w.ticks[e] else (data, hash))
  }

  lemma RecordKeepsConflicts(w: Watch, r: (Text, nat), data: Hash, hash: Hash, clock: Clock)
    requires !Conflicting(w, data, r)
    ensures FirstConflict(Record(w, r, data, hash), clock, data) == FirstConflict(w, clock, data)
  {
    if clock != [] {
      RecordKeepsConflicts(w, r, data, hash, clock[1..]);
    }
  }

  lemma {:induction false} CheckEffect(w: Watch, clock: Clock, data: Hash, hash: Hash)
    ensures Effect(w, clock, data, hash, Checked(w, clock, data, hash))
    decreases |clock|
  {
    if clock != [] && !Conflicting(w, data, clock[0]) {
      var r, rest := Record(w, clock[0], data, hash), clock[1..];
      CheckEffect(r, rest, data, hash);
      RecordKeepsConflicts(w, clock[0], data, hash, rest);
      var k := FirstConflict(w, clock, data);
      assert FirstConflict(r, rest, data) == k - 1;
      assert clock[..k] == [clock[0]] + rest[..k - 1];
    }
  }

  // ---- what every run keeps ----

  /** Two sightings carry the same entry with different data. */
  predicate Clash(a: Sighting, b: Sighting, e: (Text, nat)) {
    e in a.clock && e in b.clock && a.data != b.data
  }

  /** Two of the sightings clash on an entry of the origin. */
  ghost predicate Contested(ss: seq<Sighting>, origin: Text) {
    exists a, b, t :: a in ss && b in ss && Clash(a, b, (origin, t))
  }

  /** The proof names two sightings that clash on its origin and tick. */
  ghost predicate Proven(ss: seq<Sighting>, p: Proof) {
    exists a, b :: a in ss && b in ss && a.hash == p.hashA && b.hash == p.hashB && Clash(a, b, (p.origin, p.tick))
  }

  ghost predicate SeenWith(ss: seq<Sighting>, e: (Text, nat), data: Hash, hash: Hash) {
    exists s :: s in ss && e in s.clock && s.data == data && s.hash == hash
  }

  /** Every record comes from a sighting, every proof is sound, and each denied origin has exactly one proof. */
  ghost predicate Justified(ss: seq<Sighting>, w: Watch) {
    && (forall e :: e in w.ticks ==> SeenWith(ss, e, w.ticks[e].0, w.ticks[e].1))
    && (forall p :: p in w.proofs ==> Proven(ss, p))
    && (forall o :: o in w.denied <==> exists i :: 0 <= i < |w.proofs| && w.proofs[i].origin == o)
    && (forall i, j :: 0 <= i < j < |w.proofs| ==> w.proofs[i].origin != w.proofs[j].origin)
  }

  lemma SeenLater(ss: seq<Sighting>, s: Sighting, e: (Text, nat), data: Hash, hash: Hash)
    requires SeenWith(ss, e, data, hash)
    ensures SeenWith(ss + [s], e, data, hash)
  {
    var x :| x in ss && e in x.clock && x.data == data && x.hash == hash;
    assert x in ss + [s];
  }

  lemma ProvenLater(ss: seq<Sighting>, s: Sighting, p: Proof)
    requires Proven(ss, p)
    ensures Proven(ss + [s], p)
  {
    var a, b :| a in ss && b in ss && a.hash == p.hashA && b.hash == p.hashB && Clash(a, b, (p.origin, p.tick));
    assert a in ss + [s] && b in ss + [s];
  }

  lemma ConflictProves(ss: seq<Sighting>, w: Watch, s: Sighting, e: (Text, nat))
    requires Justified(ss, w) && e in s.clock && Conflicting(w, s.data, e)
    ensures Proven(ss + [s], Proof(e.0, e.1, w.ticks[e].1, s.hash))
  {
    assert SeenWith(ss, e, w.ticks[e].0, w.ticks[e].1);
    var x :| x in ss && e in x.clock && x.data == w.ticks[e].0 && x.hash == w.ticks[e].1;
    assert x in ss + [s] && s in ss + [s] && Clash(x, s, e);
  }

  lemma CheckJustified(ss: seq<Sighting>, w: Watch, s: Sighting)
    requires Justified(ss, w)
    ensures Justified(ss + [s], Checked(w, s.clock, s.data, s.hash))
  {
    CheckEffect(w, s.clock, s.data, s.hash);
    var w', k := Checked(w, s.clock, s.data, s.hash), FirstConflict(w, s.clock, s.data);
    forall e | e in w'.ticks
      ensures SeenWith(ss + [s], e, w'.ticks[e].0, w'.ticks[e].1)
    {
      if e in w.ticks {
        SeenLater(ss, s, e, w.ticks[e].0, w.ticks[e].1);
      } else {
        assert Noted(w, s.clock, k, e);
        assert s in ss + [s] && e in s.clock;
      }
    }
    forall p | p in w.proofs
      ensures Proven(ss + [s], p)
    {
      ProvenLater(ss, s, p);
    }
    if k < |s.clock| { ConflictProves(ss, w, s, s.clock[k]); }
    forall o
      ensures o in w'.denied <==> exists i :: 0 <= i < |w'.proofs| && w'.proofs[i].origin == o
    {
      if o in w.denied {
        var i :| 0 <= i < |w.proofs| && w.proofs[i].origin == o;
        assert w'.proofs[i].origin == o;
      } else if o in w'.denied {
        assert w'.proofs[|w.proofs|].origin == o;
      }
    }
  }

  /** Over every run: only contested origins are denied, once each, and every proof names two clashing nodes. */
  lemma {:induction false} DenialsAreProven(ss: seq<Sighting>)
    ensures Justified(ss, After(ss))
    ensures forall o :: o in After(ss).denied ==> Contested(ss, o)
  {
    if ss != [] {
      var most, s := ss[..|ss| - 1], ss[|ss| - 1];
      DenialsAreProven(most);
      CheckJustified(most, After(most), s);
      assert most + [s] == ss;
    }
    var w := After(ss);
    forall o | o in w.denied
      ensures Contested(ss, o)
    {
      var i :| 0 <= i < |w.proofs| && w.proofs[i].origin == o;
      assert w.proofs[i] in w.proofs && Proven(ss, w.proofs[i]);
    }
  }

  lemma ProofsAreProven(ss: seq<Sighting>)
    ensures forall p :: p in After(ss).proofs ==> Proven(ss, p)
  {
    DenialsAreProven(ss);
  }

  // ---- completeness ----

  /** The entry needs no further look: its origin is denied, or it is recorded with this data. */
  predicate Settled(w: Watch, data: Hash, e: (Text, nat)) {
    e.0 in w.denied || (e in w.ticks && w.ticks[e].0 == data)
  }

  /** A call that stops at a conflict skips only entries that are settled, repeated, or of the origin it denies. */
  predicate SkipsNothing(w: Watch, s: Sighting) {
    var k := FirstConflict(w, s.clock, s.data);
    forall m :: k < m < |s.clock| ==>
      Settled(w, s.data, s.clock[m]) || s.clock[m].0 == s.clock[k].0 || s.clock[m] in s.clock[..k]
  }

  /** Every entry seen is settled. */
  ghost predicate Exact(ss: seq<Sighting>, w: Watch) {
    forall s, e :: s in ss && e in s.clock ==> Settled(w, s.data, e)
  }

  lemma StaysSettled(w: Watch, s: Sighting, data: Hash, e: (Text, nat))
    requires Settled(w, data, e)
    ensures Settled(Checked(w, s.clock, s.data, s.hash), data, e)
  {
    CheckEffect(w, s.clock, s.data, s.hash);
  }

  /** After a call every entry of its clock is settled exactly if the call skipped nothing. */
  lemma SettledIff(w: Watch, s: Sighting)
    ensures SkipsNothing(w, s) <==>
      forall e :: e in s.clock ==> Settled(Checked(w, s.clock, s.data, s.hash), s.data, e)
  {
    CheckEffect(w, s.clock, s.data, s.hash);
    var w', k := Checked(w, s.clock, s.data, s.hash), FirstConflict(w, s.clock, s.data);
    forall e | e in s.clock[..k]
      ensures Settled(w', s.data, e)
    {
      var i :| 0 <= i < k && s.clock[i] == e;
      assert !Conflicting(w, s.data, s.clock[i]);
      assert Noted(w, s.clock, k, e) || e.0 in w.denied;
    }
    if SkipsNothing(w, s) {
      forall e | e in s.clock
        ensures Settled(w', s.data, e)
      {
        var m :| 0 <= m < |s.clock| && s.clock[m] == e;
        if m < k {
          assert e in s.clock[..k];
        } else if k < m && Settled(w, s.data, e) {
          StaysSettled(w, s, s.data, e);
        }
      }
    } else {
      var m :| k < m < |s.clock| && !Settled(w, s.data, s.clock[m]) && s.clock[m].0 != s.clock[k].0 &&
        s.clock[m] !in s.clock[..k];
      assert s.clock[m] in s.clock;
      assert !Noted(w, s.clock, k, s.clock[m]);
    }
  }

  ghost predicate NothingSkipped(ss: seq<Sighting>) {
    forall i :: 0 <= i < |ss| ==> SkipsNothing(After(ss[..i]), ss[i])
  }

  /** Once every entry seen is settled, a call keeps it so exactly if it skips nothing. */
  lemma ExactStep(ss: seq<Sighting>, s: Sighting)
    requires Exact(ss, After(ss))
    ensures Exact(ss + [s], After(ss + [s])) <==> SkipsNothing(After(ss), s)
  {
    RunSplits(ss, s);
    SettledIff(After(ss), s);
    if SkipsNothing(After(ss), s) {
      forall x, e | x in ss + [s] && e in x.clock
        ensures Settled(After(ss + [s]), x.data, e)
      {
        if x in ss { StaysSettled(After(ss), s, x.data, e); }
      }
    } else {
      assert s in ss + [s];
    }
  }

  lemma {:induction false} RunIsExact(ss: seq<Sighting>)
    requires NothingSkipped(ss)
    ensures Exact(ss, After(ss))
  {
    if ss != [] {
      var most, s := ss[..|ss| - 1], ss[|ss| - 1];
      forall i | 0 <= i < |most|
        ensures SkipsNothing(After(most[..i]), most[i])
      {
        assert most[..i] == ss[..i];
      }
      RunIsExact(most);
      assert SkipsNothing(After(ss[..|ss| - 1]), ss[|ss| - 1]);
      ExactStep(most, s);
      assert most + [s] == ss;
    }
  }

  /** Denied means contested. */
  ghost predicate Complete(ss: seq<Sighting>) {
    forall o :: o in After(ss).denied <==> Contested(ss, o)
  }

  lemma ExactIsComplete(ss: seq<Sighting>)
    requires Exact(ss, After(ss))
    ensures Complete(ss)
  {
    DenialsAreProven(ss);
    var w := After(ss);
    forall o | Contested(ss, o)
      ensures o in w.denied
    {
      var a, b, t :| a in ss && b in ss && Clash(a, b, (o, t));
      assert Settled(w, a.data, (o, t)) && Settled(w, b.data, (o, t));
    }
  }

  /** If no call skipped anything, exactly the contested origins are denied. */
  lemma DeniedIffContested(ss: seq<Sighting>)
    requires NothingSkipped(ss)
    ensures Complete(ss)
  {
    RunIsExact(ss);
    ExactIsComplete(ss);
  }

  predicate SingleEntries(ss: seq<Sighting>) {
    forall s :: s in ss ==> |s.clock| <= 1
  }

  /** With single-entry clocks the deny list depends only on which nodes were seen. */
  lemma SingleEntryDenyListIgnoresOrder(ss: seq<Sighting>, tt: seq<Sighting>)
    requires SingleEntries(ss) && forall s :: s in ss <==> s in tt
    ensures forall o :: o in After(ss).denied <==> Contested(ss, o)
    ensures After(ss).denied == After(tt).denied
  {
    DeniedIffContested(ss);
    DeniedIffContested(tt);
    forall o
      ensures Contested(ss, o) <==> Contested(tt, o)
    {
      if a, b, t :| a in ss && b in ss && Clash(a, b, (o, t)) {
        assert a in tt && b in tt;
      }
      if a, b, t :| a in tt && b in tt && Clash(a, b, (o, t)) {
        assert a in ss && b in ss;
      }
    }
    assert forall o :: o in After(ss).denied <==> o in After(tt).denied;
  }

  lemma RunSplits(ss: seq<Sighting>, s: Sighting)
    ensures After(ss + [s]) == Checked(After(ss), s.clock, s.data, s.hash)
  {
    assert (ss + [s])[..|ss|] == ss;
  }

  /**
   * For every run: the early return has lost nothing, that is, every entry seen is settled, if and only if the list
   * is complete and stays complete after any one further node with a single-entry clock.
   */
  lemma CompleteIffNothingLost(ss: seq<Sighting>)
    ensures Exact(ss, After(ss)) <==>
      Complete(ss) && forall t: Sighting :: |t.clock| == 1 ==> Complete(ss + [t])
  {
    if Exact(ss, After(ss)) {
      ExactIsComplete(ss);
      forall t: Sighting | |t.clock| == 1
        ensures Complete(ss + [t])
      {
        ExactStep(ss, t);
        ExactIsComplete(ss + [t]);
      }
    } else {
      var s, e :| s in ss && e in s.clock && !Settled(After(ss), s.data, e);
      LostClash(ss, s, e);
    }
  }

  lemma LostClash(ss: seq<Sighting>, s: Sighting, e: (Text, nat))
    requires s in ss && e in s.clock && !Settled(After(ss), s.data, e)
    ensures !Complete(ss) || exists t: Sighting :: |t.clock| == 1 && !Complete(ss + [t])
  {
    var w := After(ss);
    DenialsAreProven(ss);
    if e in w.ticks {
      assert SeenWith(ss, e, w.ticks[e].0, w.ticks[e].1);
      var x :| x in ss && e in x.clock && x.data == w.ticks[e].0;
      assert Clash(x, s, (e.0, e.1));
      assert Contested(ss, e.0);
    } else {
      var t := Sighting(s.author, [e], s.data + 1, 0);
      RunSplits(ss, t);
      CheckEffect(w, t.clock, t.data, t.hash);
      assert s in ss + [t] && t in ss + [t] && Clash(s, t, (e.0, e.1));
      assert Contested(ss + [t], e.0);
      assert e.0 !in After(ss + [t]).denied;
      assert |t.clock| == 1 && !Complete(ss + [t]);
    }
  }

  lemma CheckOne(w: Watch, e: (Text, nat), data: Hash, hash: Hash)
    requires e !in w.ticks
    ensures Checked(w, [e], data, hash) == Record(w, e, data, hash)
  {
    assert [e][1..] == [];
  }

  /** With larger clocks a clash can go unnoticed: the second node stops at `a` and never gets to `b`. */
  lemma EarlyReturnLosesClash(a: Text, b: Text) returns (ss: seq<Sighting>)
    requires a != b
    ensures |ss| == 2 && Contested(ss, b) && b !in After(ss).denied
  {
    var x, y := Sighting(a, [(a, 1), (b, 1)], 1, 10), Sighting(a, [(a, 1), (b, 1)], 2, 20);
    ss := [x] + [y];
    assert x in ss && y in ss && x.clock[0] == (a, 1) && x.clock[1] == (b, 1) && y.clock[1] == (b, 1);
    assert Clash(x, y, (b, 1));
    RunSplits([x], y);
    FirstRecords(x, (a, 1));
    FirstDeniesNone(x);
    assert y.clock[0] == (a, 1) && Conflicting(After([x]), 2, (a, 1));
    assert After(ss) == Deny(After([x]), (a, 1), 20);
  }

  // ---- complete on every run ----

  /** As in a map, every origin has at most one entry. */
  predicate Keyed(clock: Clock) {
    forall i, j :: 0 <= i < j < |clock| ==> clock[i].0 != clock[j].0
  }

  /** Some of these nodes clashes with `s` on `e`. */
  ghost predicate ClashesIn(ss: seq<Sighting>, s: Sighting, e: (Text, nat)) {
    exists a :: a in ss && Clash(s, a, e)
  }

  /** No node has clashing entries of two different origins. */
  ghost predicate OneOriginClashes(ss: seq<Sighting>) {
    forall s, e, e' :: s in ss && ClashesIn(ss, s, e) && ClashesIn(ss, s, e') ==> e.0 == e'.0
  }

  /** The entries seen that clash with anything in `ss` are settled. */
  ghost predicate ClashesSettled(ss: seq<Sighting>, tt: seq<Sighting>) {
    forall s, e :: s in tt && ClashesIn(ss, s, e) ==> Settled(After(tt), s.data, e)
  }

  /** What stops a call clashes with an earlier node. */
  lemma StopClashes(ss: seq<Sighting>, tt: seq<Sighting>, s: Sighting)
    requires SeesOnly(tt, ss) && FirstConflict(After(tt), s.clock, s.data) < |s.clock|
    ensures ClashesIn(ss, s, s.clock[FirstConflict(After(tt), s.clock, s.data)])
  {
    var w := After(tt);
    var c := s.clock[FirstConflict(w, s.clock, s.data)];
    DenialsAreProven(tt);
    assert SeenWith(tt, c, w.ticks[c].0, w.ticks[c].1);
    var x :| x in tt && c in x.clock && x.data == w.ticks[c].0;
    assert Clash(s, x, c);
  }

  /** Entries in front of the stop, and those of the origin it denies, are settled by the call. */
  lemma SettledUpToStop(w: Watch, s: Sighting, m: nat)
    requires m < |s.clock|
    requires var k := FirstConflict(w, s.clock, s.data);
      m < k || (k < |s.clock| && s.clock[k].0 == s.clock[m].0)
    ensures Settled(Checked(w, s.clock, s.data, s.hash), s.data, s.clock[m])
  {
    CheckEffect(w, s.clock, s.data, s.hash);
    var k := FirstConflict(w, s.clock, s.data);
    if m < k {
      assert !Conflicting(w, s.data, s.clock[m]);
      assert s.clock[m] in s.clock[..k];
      assert Noted(w, s.clock, k, s.clock[m]) || s.clock[m].0 in w.denied;
    }
  }

  lemma CallSettlesClash(ss: seq<Sighting>, tt: seq<Sighting>, s: Sighting, e: (Text, nat))
    requires SeesOnly(tt, ss) && s in ss && OneOriginClashes(ss) && ClashesIn(ss, s, e)
    ensures Settled(Checked(After(tt), s.clock, s.data, s.hash), s.data, e)
  {
    var k := FirstConflict(After(tt), s.clock, s.data);
    var m :| 0 <= m < |s.clock| && s.clock[m] == e;
    if k <= m { StopClashes(ss, tt, s); }
    SettledUpToStop(After(tt), s, m);
  }

  lemma {:induction false} RunSettlesClashes(ss: seq<Sighting>, tt: seq<Sighting>)
    requires SeesOnly(tt, ss) && OneOriginClashes(ss)
    ensures ClashesSettled(ss, tt)
  {
    if tt != [] {
      var most, s := tt[..|tt| - 1], tt[|tt| - 1];
      assert most + [s] == tt;
      RunSettlesClashes(ss, most);
      RunSplits(most, s);
      forall x, e | x in tt && ClashesIn(ss, x, e)
        ensures Settled(After(tt), x.data, e)
      {
        if x in most { StaysSettled(After(most), s, x.data, e); } else { CallSettlesClash(ss, most, s, e); }
      }
    }
  }

  lemma SettledClashesComplete(ss: seq<Sighting>, tt: seq<Sighting>)
    requires SeesOnly(tt, ss) && ClashesSettled(ss, tt)
    ensures Complete(tt)
  {
    DenialsAreProven(tt);
    forall o | Contested(tt, o)
      ensures o in After(tt).denied
    {
      var a, b, t :| a in tt && b in tt && Clash(a, b, (o, t));
      assert Clash(b, a, (o, t));
      assert ClashesIn(ss, a, (o, t)) && ClashesIn(ss, b, (o, t));
      assert Settled(After(tt), a.data, (o, t)) && Settled(After(tt), b.data, (o, t));
    }
  }

  /** Two clashing origins in one node: some order of three nodes leaves one of them undenied. */
  lemma TwoOriginsLose(s: Sighting, a: Sighting, p: nat, b: Sighting, q: nat) returns (tt: seq<Sighting>)
    requires p < q < |s.clock| && Keyed(s.clock) && Keyed(b.clock)
    requires Clash(s, a, s.clock[p]) && Clash(s, b, s.clock[q])
    ensures !Complete(tt) && forall x :: x in tt ==> x == s || x == a || x == b
  {
    var e, e' := s.clock[p], s.clock[q];
    var w := After([a]);
    FirstRecords(a, e);
    FirstDeniesNone(a);
    RunSplits([a], s);
    CheckEffect(w, s.clock, s.data, s.hash);
    var k := FirstConflict(w, s.clock, s.data);
    assert Conflicting(w, s.data, s.clock[p]);
    assert k <= p;
    tt := [a] + [s];
    assert a in tt && s in tt && Clash(a, s, (e.0, e.1));
    assert Contested(tt, e.0);
    if e' in a.clock {
      assert Clash(a, s, (e'.0, e'.1));
      assert Contested(tt, e'.0);
    } else if s.clock[k].0 == e.0 {
      assert k == p;
      UnrecordedLoses(tt, s, b, q, k);
      tt := tt + [b];
    }
  }

  /** An entry never recorded is not what the next clashing node is stopped by. */
  lemma UnrecordedLoses(tt: seq<Sighting>, s: Sighting, b: Sighting, q: nat, k: nat)
    requires s in tt && k < q < |s.clock| && Keyed(b.clock) && Clash(s, b, s.clock[q])
    requires s.clock[q] !in After(tt).ticks && s.clock[q].0 !in After(tt).denied
    ensures !Complete(tt + [b])
  {
    var e' := s.clock[q];
    RunSplits(tt, b);
    NotDeniedNow(After(tt), b, e');
    assert s in tt + [b] && b in tt + [b] && Clash(s, b, (e'.0, e'.1));
    assert Contested(tt + [b], e'.0);
  }

  /** An unrecorded entry does not get its origin denied by a clock that names the origin only there. */
  lemma NotDeniedNow(w: Watch, b: Sighting, e: (Text, nat))
    requires Keyed(b.clock) && e in b.clock && e !in w.ticks && e.0 !in w.denied
    ensures e.0 !in Checked(w, b.clock, b.data, b.hash).denied
  {
    CheckEffect(w, b.clock, b.data, b.hash);
    var m :| 0 <= m < |b.clock| && b.clock[m] == e;
    assert !Conflicting(w, b.data, b.clock[m]);
  }

  lemma SomeRunIncomplete(ss: seq<Sighting>) returns (tt: seq<Sighting>)
    requires (forall s :: s in ss ==> Keyed(s.clock)) && !OneOriginClashes(ss)
    ensures SeesOnly(tt, ss) && !Complete(tt)
  {
    var s, e, e' :| s in ss && ClashesIn(ss, s, e) && ClashesIn(ss, s, e') && e.0 != e'.0;
    var a :| a in ss && Clash(s, a, e);
    var b :| b in ss && Clash(s, b, e');
    var p: nat :| p < |s.clock| && s.clock[p] == e;
    var q: nat :| q < |s.clock| && s.clock[q] == e';
    if p < q { tt := TwoOriginsLose(s, a, p, b, q); } else { tt := TwoOriginsLose(s, b, q, a, p); }
  }

  /**
   * The deny list is complete on every run over these nodes, in any order, if and only if no node has clashing
   * entries of two different origins.
   */
  lemma CompleteOnEveryRunIff(ss: seq<Sighting>)
    requires forall s :: s in ss ==> Keyed(s.clock)
    ensures (forall tt :: SeesOnly(tt, ss) ==> Complete(tt)) <==> OneOriginClashes(ss)
  {
    if OneOriginClashes(ss) {
      forall tt | SeesOnly(tt, ss)
        ensures Complete(tt)
      {
        RunSettlesClashes(ss, tt);
        SettledClashesComplete(ss, tt);
      }
    } else {
      var tt := SomeRunIncomplete(ss);
    }
  }

  // ---- who made the clashing nodes ----

  /** The origin itself made two nodes that clash on one of its entries. */
  ghost predicate Forked(ss: seq<Sighting>, o: Text) {
    exists a, b, t :: a in ss && b in ss && a.author == o == b.author && Clash(a, b, (o, t))
  }

  /** Every denied origin has forked within what was seen. */
  ghost predicate Fair(ss: seq<Sighting>) {
    forall o :: o in After(ss).denied ==> Forked(ss, o)
  }

  /** Entries on which nodes clash are carried only by nodes of their own origin. */
  ghost predicate OwnClashes(ss: seq<Sighting>) {
    forall a, b, e :: a in ss && b in ss && Clash(a, b, e) ==> a.author == e.0 == b.author
  }

  /** A run that sees only these nodes, in any order; a node may come again after a collection dropped it. */
  ghost predicate SeesOnly(tt: seq<Sighting>, ss: seq<Sighting>) {
    forall x :: x in tt ==> x in ss
  }

  /**
   * A causal clock gets an honest origin denied: `b` makes a node that has seen the only node of `a`, and `a` is
   * denied for it.
   */
  lemma HonestOriginDenied(a: Text, b: Text) returns (ss: seq<Sighting>)
    requires a != b
    ensures |ss| == 2 && a in After(ss).denied && !Forked(ss, a)
  {
    var x, y := Sighting(a, [(a, 1)], 1, 10), Sighting(b, [(a, 1), (b, 1)], 2, 20);
    ss := [x] + [y];
    RunSplits([], x);
    RunSplits([x], y);
    assert [] + [x] == [x];
    CheckOne(Unsuspecting, (a, 1), 1, 10);
    assert y.clock[0] == (a, 1) && Conflicting(After([x]), 2, (a, 1));
  }

  ghost function Undenied(w: Watch, clock: Clock): set<nat> {
    set i: nat | i < |clock| && clock[i].0 !in w.denied
  }

  /** Seeing the same node again and again denies, one by one, every origin it clashes on. */
  lemma DenyByRepeating(ss: seq<Sighting>, b: Sighting, e: (Text, nat)) returns (tt: seq<Sighting>)
    requires e in b.clock && e in After(ss).ticks && After(ss).ticks[e].0 != b.data
    ensures e.0 in After(tt).denied && forall x :: x in tt ==> x in ss || x == b
    decreases Undenied(After(ss), b.clock)
  {
    var w := After(ss);
    if e.0 in w.denied {
      tt := ss;
    } else {
      RunSplits(ss, b);
      CheckEffect(w, b.clock, b.data, b.hash);
      var m :| 0 <= m < |b.clock| && b.clock[m] == e;
      assert Conflicting(w, b.data, b.clock[m]);
      var k := FirstConflict(w, b.clock, b.data);
      assert k in Undenied(w, b.clock) && k !in Undenied(After(ss + [b]), b.clock);
      tt := DenyByRepeating(ss + [b], b, e);
    }
  }

  lemma FirstRecords(a: Sighting, e: (Text, nat))
    requires e in a.clock
    ensures e in After([a]).ticks && After([a]).ticks[e].0 == a.data
  {
    RunSplits([], a);
    assert [] + [a] == [a];
    CheckEffect(Unsuspecting, a.clock, a.data, a.hash);
    assert a.clock[..|a.clock|] == a.clock;
    assert Noted(Unsuspecting, a.clock, FirstConflict(Unsuspecting, a.clock, a.data), e);
  }

  lemma FirstDeniesNone(a: Sighting)
    ensures After([a]).denied == {} && forall e :: e in After([a]).ticks ==> e in a.clock
  {
    RunSplits([], a);
    assert [] + [a] == [a];
    CheckEffect(Unsuspecting, a.clock, a.data, a.hash);
  }

  /** Clashing nodes get the origin denied in some run that sees only them. */
  lemma SomeRunDenies(a: Sighting, b: Sighting, e: (Text, nat)) returns (tt: seq<Sighting>)
    requires Clash(a, b, e)
    ensures e.0 in After(tt).denied && forall x :: x in tt ==> x == a || x == b
  {
    FirstRecords(a, e);
    tt := DenyByRepeating([a], b, e);
  }

  lemma FairIfOwn(ss: seq<Sighting>)
    requires OwnClashes(ss)
    ensures Fair(ss)
  {
    DenialsAreProven(ss);
    forall o | o in After(ss).denied
      ensures Forked(ss, o)
    {
      var a, b, t :| a in ss && b in ss && Clash(a, b, (o, t));
    }
  }

  /**
   * Only origins that forked are ever denied, in whatever run over these nodes, if and only if every clashing entry
   * is carried only by nodes of its own origin.
   */
  lemma DenialsFairIff(ss: seq<Sighting>)
    ensures (forall tt :: SeesOnly(tt, ss) ==> Fair(tt)) <==> OwnClashes(ss)
  {
    if OwnClashes(ss) {
      forall tt | SeesOnly(tt, ss)
        ensures Fair(tt)
      {
        FairIfOwn(tt);
      }
    }
    if a, b, e :| a in ss && b in ss && Clash(a, b, e) && !(a.author == e.0 == b.author) {
      var tt := SomeRunDenies(a, b, e);
      assert SeesOnly(tt, ss);
      assert !Forked(tt, e.0);
    }
  }
}
