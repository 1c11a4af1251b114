// The sharded alert deduplicator: an LRU cache per shard with a fixed suppression window, against a
// reference that looks only at the history of checks.
module Dedup {
  import opened Collections

  type NodeId = nat
  type Time = int
  datatype Signature = Signature(node: NodeId, rule: string, technique: Option<string>)
  datatype Check = Check(sig: Signature, now: Time)
  type Trace = seq<Check>

  /// One shard: entries from the most to the least recently used

  datatype Entry = Entry(sig: Signature, lastSeen: Time, count: nat)
  type Shard = seq<Entry>

  function Keys(s: Shard): (k: seq<Signature>)
    ensures |k| == |s| && forall i | 0 <= i < |s| :: k[i] == s[i].sig
  {
    seq(|s|, i requires 0 <= i < |s| => s[i].sig)
  }

  function Find(s: Shard, sig: Signature): (i: nat)
    ensures i <= |s|
    ensures i < |s| ==> s[i].sig == sig
    ensures forall j | 0 <= j < i :: s[j].sig != sig
  {
    var i := IndexOf(Keys(s), sig);
    assert forall j | 0 <= j < i :: Keys(s)[j] == Keys(s)[..i][j];
    i
  }

  function Step(s: Shard, cap: nat, window: nat, c: Check): (r: (Shard, bool))
    requires cap > 0
  {
    var i := Find(s, c.sig);
    if i < |s| then
      var rest := s[..i] + s[i + 1..];
      if Elapsed(c.now, s[i].lastSeen) < window then ([Entry(c.sig, s[i].lastSeen, s[i].count + 1)] + rest, false)
      else ([Entry(c.sig, c.now, 1)] + rest, true)
    else
      ([Entry(c.sig, c.now, 1)] + (if |s| < cap then s else s[..cap - 1]), true)
  }

  function Run(t: Trace, cap: nat, window: nat): Shard
    requires cap > 0
  {
    if t == [] then [] else Step(Run(t[..|t| - 1], cap, window), cap, window, t[|t| - 1]).0
  }

  /// The reference: what the history alone says

  function Sigs(t: Trace): set<Signature> {
    set c | c in t :: c.sig
  }

  // Index of the last check of a signature, or -1.
  function LastCheck(t: Trace, sig: Signature): (i: int)
    ensures -1 <= i < |t|
    ensures i >= 0 ==> t[i].sig == sig
    ensures forall j | i < j < |t| :: t[j].sig != sig
  {
    if t == [] then -1
    else if t[|t| - 1].sig == sig then |t| - 1
    else LastCheck(t[..|t| - 1], sig)
  }

  // Checked before, with fewer than cap distinct other signatures checked since.
  predicate Remembered(t: Trace, cap: nat, sig: Signature) {
    var i := LastCheck(t, sig);
    i >= 0 && |Sigs(t[i + 1..])| < cap
  }

  predicate Admits(t: Trace, cap: nat, window: nat, c: Check)
    decreases |t|, 1
  {
    Remembered(t, cap, c.sig) && LastAdmission(t, cap, window, c.sig) >= 0
    ==> Elapsed(c.now, t[LastAdmission(t, cap, window, c.sig)].now) >= window
  }

  // Index of the last check of a signature that was admitted, or -1.
  function LastAdmission(t: Trace, cap: nat, window: nat, sig: Signature): (i: int)
    ensures -1 <= i < |t|
    ensures i >= 0 ==> t[i].sig == sig
    decreases |t|, 0
  {
    if t == [] then -1
    else if t[|t| - 1].sig == sig && Admits(t[..|t| - 1], cap, window, t[|t| - 1]) then |t| - 1
    else LastAdmission(t[..|t| - 1], cap, window, sig)
  }

  predicate AdmittedAt(t: Trace, cap: nat, window: nat, i: nat)
    requires i < |t|
  {
    Admits(t[..i], cap, window, t[i])
  }

  function Occurrences(t: Trace, sig: Signature): nat {
    if t == [] then 0 else Occurrences(t[..|t| - 1], sig) + if t[|t| - 1].sig == sig then 1 else 0
  }

  // Distinct signatures, the last checked first.
  function Recency(t: Trace): seq<Signature> {
    if t == [] then [] else [t[|t| - 1].sig] + Remove(Recency(t[..|t| - 1]), t[|t| - 1].sig)
  }

  function Remove(q: seq<Signature>, sig: Signature): (r: seq<Signature>)
    ensures forall x :: x in r <==> x in q && x != sig
  {
    if q == [] then [] else (if q[0] == sig then [] else [q[0]]) + Remove(q[1..], sig)
  }

  function Take<T>(q: seq<T>, n: nat): seq<T> {
    if |q| <= n then q else q[..n]
  }

  /// Facts about the reference

  lemma {:induction false} RemoveAbsent(q: seq<Signature>, sig: Signature)
    requires sig !in q
    ensures Remove(q, sig) == q
  {
    if q != [] {
      RemoveAbsent(q[1..], sig);
    }
  }

  lemma {:induction false} RemoveAt(q: seq<Signature>, p: nat)
    requires Distinct(q) && p < |q|
    ensures Remove(q, q[p]) == q[..p] + q[p + 1..]
  {
    if p == 0 {
      RemoveAbsent(q[1..], q[0]);
    } else {
      RemoveAt(q[1..], p - 1);
      assert q[..p] + q[p + 1..] == [q[0]] + (q[1..][..p - 1] + q[1..][p..]);
    }
  }

  lemma SigsSnoc(t: Trace, c: Check)
    ensures Sigs(t + [c]) == Sigs(t) + {c.sig}
  {
  }

  lemma LastCheckSnoc(t: Trace, c: Check, sig: Signature)
    ensures LastCheck(t + [c], sig) == if c.sig == sig then |t| else LastCheck(t, sig)
  {
    assert (t + [c])[..|t|] == t;
  }

  // The signatures before place p of a recency order are those checked after the one at p.
  ghost predicate Ranked(t: Trace, q: seq<Signature>, p: nat)
    requires p < |q|
  {
    var i := LastCheck(t, q[p]);
    i >= 0 && Sigs(t[i + 1..]) == ToSet(q[..p])
  }

  ghost predicate IsRecency(t: Trace, q: seq<Signature>) {
    && Distinct(q)
    && ToSet(q) == Sigs(t)
    && forall p | 0 <= p < |q| :: Ranked(t, q, p)
  }

  // A signature behind the newly checked one in r keeps its place; one before it moves back by one.
  lemma RankStep(t: Trace, c: Check, r: seq<Signature>, q: seq<Signature>, p: nat, p': nat)
    requires p < |r| && Ranked(t, r, p) && r[p] != c.sig
    requires p' < |q| && q[p'] == r[p] && ToSet(q[..p']) == ToSet(r[..p]) + {c.sig}
    ensures Ranked(t + [c], q, p')
  {
    var i := LastCheck(t, r[p]);
    LastCheckSnoc(t, c, r[p]);
    assert (t + [c])[i + 1..] == t[i + 1..] + [c];
    SigsSnoc(t[i + 1..], c);
  }

  lemma RecencyStepAbsent(t: Trace, c: Check, r: seq<Signature>)
    requires IsRecency(t, r) && c.sig !in r
    ensures IsRecency(t + [c], [c.sig] + r)
  {
    var q := [c.sig] + r;
    SigsSnoc(t, c);
    LastCheckSnoc(t, c, c.sig);
    forall p | 0 <= p < |q|
      ensures Ranked(t + [c], q, p)
    {
      if p > 0 {
        assert q[..p] == [c.sig] + r[..p - 1];
        RankStep(t, c, r, q, p - 1, p);
      }
    }
  }

  lemma RecencyStepPresent(t: Trace, c: Check, r: seq<Signature>, k: nat)
    requires IsRecency(t, r) && k < |r| && r[k] == c.sig
    ensures IsRecency(t + [c], [c.sig] + (r[..k] + r[k + 1..]))
  {
    var q := [c.sig] + (r[..k] + r[k + 1..]);
    SigsSnoc(t, c);
    LastCheckSnoc(t, c, c.sig);
    assert r == r[..k] + [r[k]] + r[k + 1..];
    assert ToSet(q) == ToSet(r);
    forall p | 0 <= p < |q|
      ensures Ranked(t + [c], q, p)
    {
      if 0 < p <= k {
        assert q[..p] == [c.sig] + r[..p - 1];
        RankStep(t, c, r, q, p - 1, p);
      } else if k < p {
        assert q[..p] == [c.sig] + (r[..k] + r[k + 1..p]);
        assert r[..p] == r[..k] + [r[k]] + r[k + 1..p];
        RankStep(t, c, r, q, p, p);
      }
    }
  }

  lemma {:induction false} RecencyIsRecency(t: Trace)
    ensures IsRecency(t, Recency(t))
    decreases |t|
  {
    if t != [] {
      var front, c := t[..|t| - 1], t[|t| - 1];
      var r := Recency(front);
      RecencyIsRecency(front);
      assert front + [c] == t;
      if c.sig in r {
        var k :| 0 <= k < |r| && r[k] == c.sig;
        RemoveAt(r, k);
        RecencyStepPresent(front, c, r, k);
      } else {
        RemoveAbsent(r, c.sig);
        RecencyStepAbsent(front, c, r);
      }
    }
  }

  lemma {:induction false} SizeOfDistinct<T>(q: seq<T>)
    requires Distinct(q)
    ensures |ToSet(q)| == |q|
  {
    if q != [] {
      var front, last := q[..|q| - 1], q[|q| - 1];
      SizeOfDistinct(front);
      assert q == front + [last];
      assert ToSet(q) == ToSet(front) + {last};
    }
  }

  lemma TakenIffEarly<T>(q: seq<T>, n: nat, p: nat)
    requires Distinct(q) && p < |q|
    ensures q[p] in Take(q, n) <==> p < n
  {
    if p < n {
      assert Take(q, n)[p] == q[p];
    }
  }

  // A bounded prefix of the recency order holds exactly the remembered signatures.
  lemma TakeRecencyIsRemembered(t: Trace, cap: nat, sig: Signature)
    ensures sig in Take(Recency(t), cap) <==> Remembered(t, cap, sig)
  {
    hide Recency, LastCheck;
    RecencyIsRecency(t);
    var r := Recency(t);
    if sig in r {
      var p :| 0 <= p < |r| && r[p] == sig;
      assert Ranked(t, r, p);
      SizeOfDistinct(r[..p]);
      TakenIffEarly(r, cap, p);
    } else {
      assert forall x :: x in Take(r, cap) ==> x in r;
      LastCheckWasMade(t, sig);
    }
  }

  lemma LastCheckWasMade(t: Trace, sig: Signature)
    ensures LastCheck(t, sig) >= 0 ==> sig in Sigs(t)
  {
    var i := LastCheck(t, sig);
    if i >= 0 {
      assert t[i] in t;
    }
  }

  // The first check of a signature is admitted, so every checked signature has a last admission.
  lemma {:induction false} CheckedWasAdmitted(t: Trace, cap: nat, window: nat, sig: Signature)
    ensures LastCheck(t, sig) >= 0 <==> LastAdmission(t, cap, window, sig) >= 0
    ensures LastAdmission(t, cap, window, sig) <= LastCheck(t, sig)
  {
    if t != [] {
      CheckedWasAdmitted(t[..|t| - 1], cap, window, sig);
    }
  }

  /// The shard is the reference

  ghost predicate EntryOk(t: Trace, cap: nat, window: nat, e: Entry) {
    var i := LastAdmission(t, cap, window, e.sig);
    i >= 0 && e.lastSeen == t[i].now && e.count == 1 + Occurrences(t[i + 1..], e.sig)
  }

  lemma StepShape(s: Shard, cap: nat, window: nat, c: Check)
    requires cap > 0
    ensures var i, s' := Find(s, c.sig), Step(s, cap, window, c).0;
            && |s'| > 0 && s'[0].sig == c.sig
            && (i < |s| ==> s' == [s'[0]] + (s[..i] + s[i + 1..]))
            && (i == |s| ==> s' == [s'[0]] + if |s| < cap then s else s[..cap - 1])
  {
    hide Find, Elapsed;
  }

  // On a hit the key moves to the front; on a miss it is put there and a full shard drops its last key.
  lemma HitOnKeys(s: Shard, cap: nat, window: nat, c: Check)
    requires cap > 0 && Find(s, c.sig) < |s|
    ensures var k, i := Keys(s), Find(s, c.sig);
            k[i] == c.sig && Keys(Step(s, cap, window, c).0) == [c.sig] + (k[..i] + k[i + 1..])
  {
    hide *;
    var i, s' := Find(s, c.sig), Step(s, cap, window, c).0;
    StepShape(s, cap, window, c);
    KeysOfHead(s'[0], s[..i] + s[i + 1..]);
    KeysOfParts(s, i, i + 1);
  }

  lemma MissOnKeys(s: Shard, cap: nat, window: nat, c: Check)
    requires cap > 0 && Find(s, c.sig) == |s|
    ensures var k := Keys(s);
            c.sig !in k && Keys(Step(s, cap, window, c).0) == [c.sig] + if |k| < cap then k else k[..cap - 1]
  {
    hide *;
    var s' := Step(s, cap, window, c).0;
    StepShape(s, cap, window, c);
    KeysOfHead(s'[0], if |s| < cap then s else s[..cap - 1]);
    if |s| >= cap {
      KeysOfParts(s, cap - 1, |s|);
      assert s[..cap - 1] + s[|s|..] == s[..cap - 1];
    }
  }

  lemma KeysOfHead(e: Entry, rest: Shard)
    ensures Keys([e] + rest) == [e.sig] + Keys(rest)
  {
  }

  lemma KeysOfParts(s: Shard, i: nat, j: nat)
    requires i <= j <= |s|
    ensures Keys(s[..i] + s[j..]) == Keys(s)[..i] + Keys(s)[j..]
  {
  }

  lemma TakeStepHit(r: seq<Signature>, cap: nat, i: nat)
    requires Distinct(r) && i < |Take(r, cap)|
    ensures var k := Take(r, cap);
            [k[i]] + (k[..i] + k[i + 1..]) == Take([k[i]] + Remove(r, k[i]), cap)
  {
    RemoveAt(r, i);
    hide Remove, Distinct;
    var x, q := r[i], r[..i] + r[i + 1..];
    if |r| > cap {
      assert q[..cap - 1] == r[..i] + r[i + 1..cap];
      assert ([x] + q)[..cap] == [x] + q[..cap - 1];
      assert r[..cap][i + 1..] == r[i + 1..cap] && r[..cap][..i] == r[..i];
    }
  }

  lemma TakeStepMiss(r: seq<Signature>, cap: nat, sig: Signature)
    requires cap > 0 && Distinct(r) && sig !in Take(r, cap)
    ensures var k := Take(r, cap);
            [sig] + (if |k| < cap then k else k[..cap - 1]) == Take([sig] + Remove(r, sig), cap)
  {
    if sig in r {
      var p :| 0 <= p < |r| && r[p] == sig;
      TakenIffEarly(r, cap, p);
      RemoveAt(r, p);
    } else {
      RemoveAbsent(r, sig);
    }
  }

  // The rest of a shard after a check are old entries of other signatures.
  lemma StepKeepsOthers(s: Shard, cap: nat, window: nat, c: Check)
    requires cap > 0 && Distinct(Keys(s))
    ensures forall e | e in Step(s, cap, window, c).0[1..] :: e in s && e.sig != c.sig
  {
    var i := Find(s, c.sig);
    var rest := Step(s, cap, window, c).0[1..];
    if i < |s| {
      assert rest == s[..i] + s[i + 1..];
      assert forall j | i < j < |s| :: s[j].sig == Keys(s)[j] != Keys(s)[i];
    } else {
      assert rest <= s;
    }
  }

  lemma LastAdmissionSnoc(t: Trace, cap: nat, window: nat, c: Check, sig: Signature)
    ensures LastAdmission(t + [c], cap, window, sig)
         == if c.sig == sig && Admits(t, cap, window, c) then |t| else LastAdmission(t, cap, window, sig)
  {
    assert (t + [c])[..|t|] == t;
  }

  lemma OccurrencesSnoc(t: Trace, c: Check, sig: Signature)
    ensures Occurrences(t + [c], sig) == Occurrences(t, sig) + if c.sig == sig then 1 else 0
  {
    assert (t + [c])[..|t|] == t;
  }

  // An admission or a check of another signature leaves the record of an entry as it was.
  lemma EntryOfOther(t: Trace, cap: nat, window: nat, c: Check, e: Entry)
    requires c.sig != e.sig && EntryOk(t, cap, window, e)
    ensures EntryOk(t + [c], cap, window, e)
  {
    hide Occurrences, Admits;
    var i := LastAdmission(t, cap, window, e.sig);
    LastAdmissionSnoc(t, cap, window, c, e.sig);
    assert (t + [c])[i + 1..] == t[i + 1..] + [c];
    OccurrencesSnoc(t[i + 1..], c, e.sig);
  }

  lemma SuppressedEntry(t: Trace, cap: nat, window: nat, c: Check, e: Entry)
    requires e.sig == c.sig && EntryOk(t, cap, window, e) && !Admits(t, cap, window, c)
    ensures EntryOk(t + [c], cap, window, Entry(c.sig, e.lastSeen, e.count + 1))
  {
    hide Occurrences, Admits;
    var i := LastAdmission(t, cap, window, e.sig);
    LastAdmissionSnoc(t, cap, window, c, e.sig);
    assert (t + [c])[i + 1..] == t[i + 1..] + [c];
    OccurrencesSnoc(t[i + 1..], c, e.sig);
  }

  lemma AdmittedEntry(t: Trace, cap: nat, window: nat, c: Check)
    requires Admits(t, cap, window, c)
    ensures EntryOk(t + [c], cap, window, Entry(c.sig, c.now, 1))
  {
    hide Admits;
    LastAdmissionSnoc(t, cap, window, c, c.sig);
    assert (t + [c])[|t| + 1..] == [];
  }

  lemma HeadEntry(t: Trace, cap: nat, window: nat, s: Shard, c: Check)
    requires cap > 0
    requires forall e | e in s :: EntryOk(t, cap, window, e)
    requires Step(s, cap, window, c).1 == Admits(t, cap, window, c)
    ensures EntryOk(t + [c], cap, window, Step(s, cap, window, c).0[0])
  {
    hide EntryOk, Admits;
    if Admits(t, cap, window, c) {
      AdmittedEntry(t, cap, window, c);
    } else {
      SuppressedEntry(t, cap, window, c, s[Find(s, c.sig)]);
    }
  }

  // A shard answers as the reference does.
  lemma StepAnswer(t: Trace, cap: nat, window: nat, s: Shard, c: Check)
    requires cap > 0
    requires Keys(s) == Take(Recency(t), cap)
    requires forall e | e in s :: EntryOk(t, cap, window, e)
    ensures Step(s, cap, window, c).1 == Admits(t, cap, window, c)
  {
    TakeRecencyIsRemembered(t, cap, c.sig);
    CheckedWasAdmitted(t, cap, window, c.sig);
    var i := Find(s, c.sig);
    if i < |s| {
      assert Keys(s)[i] == c.sig;
      assert EntryOk(t, cap, window, s[i]);
    }
  }

  lemma RecencyIsDistinct(t: Trace, n: nat)
    ensures Distinct(Recency(t)) && Distinct(Take(Recency(t), n))
  {
    hide Recency, Ranked;
    RecencyIsRecency(t);
  }

  lemma KeysStep(t: Trace, cap: nat, window: nat, s: Shard, c: Check)
    requires cap > 0 && Keys(s) == Take(Recency(t), cap)
    ensures Distinct(Keys(s))
    ensures Keys(Step(s, cap, window, c).0) == Take([c.sig] + Remove(Recency(t), c.sig), cap)
  {
    hide *;
    RecencyIsDistinct(t, cap);
    if Find(s, c.sig) < |s| {
      HitOnKeys(s, cap, window, c);
      TakeStepHit(Recency(t), cap, Find(s, c.sig));
    } else {
      MissOnKeys(s, cap, window, c);
      TakeStepMiss(Recency(t), cap, c.sig);
    }
  }

  lemma EntriesStep(t: Trace, cap: nat, window: nat, s: Shard, c: Check)
    requires cap > 0 && Keys(s) == Take(Recency(t), cap) && Distinct(Keys(s))
    requires forall e | e in s :: EntryOk(t, cap, window, e)
    ensures forall e | e in Step(s, cap, window, c).0 :: EntryOk(t + [c], cap, window, e)
  {
    hide *;
    StepAnswer(t, cap, window, s, c);
    HeadEntry(t, cap, window, s, c);
    StepKeepsOthers(s, cap, window, c);
    var s' := Step(s, cap, window, c).0;
    forall e | e in s'
      ensures EntryOk(t + [c], cap, window, e)
    {
      if e in s'[1..] {
        EntryOfOther(t, cap, window, c, e);
      } else {
        assert e == s'[0];
      }
    }
  }

  /** After any run of checks the shard holds exactly the cap most recently checked distinct signatures in
      recency order, each with the time of its last admission and one plus its suppressions since. */
  lemma {:induction false} ShardContents(t: Trace, cap: nat, window: nat)
    requires cap > 0
    ensures Keys(Run(t, cap, window)) == Take(Recency(t), cap)
    ensures forall e | e in Run(t, cap, window) :: EntryOk(t, cap, window, e)
    decreases |t|
  {
    hide EntryOk, Step, Keys, Remove;
    if t != [] {
      var front, c := t[..|t| - 1], t[|t| - 1];
      assert front + [c] == t;
      ShardContents(front, cap, window);
      KeysStep(front, cap, window, Run(front, cap, window), c);
      EntriesStep(front, cap, window, Run(front, cap, window), c);
    }
  }

  /** Every answer is the reference's: admitted unless the signature is still remembered and its last
      admission lies inside the window. The window is fixed: suppressed checks do not extend it. */
  lemma ShardAnswers(t: Trace, cap: nat, window: nat, c: Check)
    requires cap > 0
    ensures Step(Run(t, cap, window), cap, window, c).1 == Admits(t, cap, window, c)
  {
    ShardContents(t, cap, window);
    StepAnswer(t, cap, window, Run(t, cap, window), c);
  }

  /// What the window promises

  ghost predicate Monotone(t: Trace) {
    forall i, j | 0 <= i <= j < |t| :: t[i].now <= t[j].now
  }

  lemma {:induction false} LastAdmissionIsLast(t: Trace, cap: nat, window: nat, i: nat)
    requires i < |t| && AdmittedAt(t, cap, window, i)
    ensures i <= LastAdmission(t, cap, window, t[i].sig)
    decreases |t|
  {
    if i < |t| - 1 {
      var front := t[..|t| - 1];
      assert front[..i] == t[..i];
      LastAdmissionIsLast(front, cap, window, i);
    }
  }

  lemma {:induction false} LastAdmissionIsAdmitted(t: Trace, cap: nat, window: nat, sig: Signature)
    ensures var i := LastAdmission(t, cap, window, sig);
            i >= 0 ==> AdmittedAt(t, cap, window, i)
    decreases |t|
  {
    if t != [] {
      var front := t[..|t| - 1];
      LastAdmissionIsAdmitted(front, cap, window, sig);
      var i := LastAdmission(front, cap, window, sig);
      if i >= 0 {
        assert front[..i] == t[..i];
      }
    }
  }

  /** A check is suppressed only when the same signature was admitted less than a window before. */
  lemma SuppressedWithinWindow(t: Trace, cap: nat, window: nat, j: nat)
    requires j < |t| && !AdmittedAt(t, cap, window, j)
    ensures exists i | 0 <= i < j ::
              t[i].sig == t[j].sig && AdmittedAt(t, cap, window, i) && Elapsed(t[j].now, t[i].now) < window
  {
    var i := LastAdmission(t[..j], cap, window, t[j].sig);
    LastAdmissionIsAdmitted(t[..j], cap, window, t[j].sig);
    assert t[..j][..i] == t[..i];
    assert AdmittedAt(t, cap, window, i);
  }

  /** Two admissions of one signature closer than the window need cap distinct other signatures in between. */
  lemma CloseAdmissionsNeedPressure(t: Trace, cap: nat, window: nat, i: nat, j: nat)
    requires Monotone(t) && i < j < |t| && t[i].sig == t[j].sig
    requires AdmittedAt(t, cap, window, i) && AdmittedAt(t, cap, window, j)
    requires t[j].now - t[i].now < window
    ensures |Sigs(t[i + 1..j]) - {t[i].sig}| >= cap
  {
    var sig, before := t[j].sig, t[..j];
    assert before[..i] == t[..i] && before[i] == t[i];
    LastAdmissionIsLast(before, cap, window, i);
    assert Admits(before, cap, window, t[j]);
    ClosePressure(before, cap, window, t[j], i);
    assert before[i + 1..] == t[i + 1..j];
  }

  lemma ClosePressure(t: Trace, cap: nat, window: nat, c: Check, i: nat)
    requires Monotone(t) && i < |t| && i <= LastAdmission(t, cap, window, c.sig)
    requires Admits(t, cap, window, c) && 0 <= c.now - t[i].now < window
    ensures |Sigs(t[i + 1..]) - {c.sig}| >= cap
  {
    hide Admits, LastAdmission, LastCheck, Sigs, Remembered, Elapsed;
    assert t[i].now <= t[LastAdmission(t, cap, window, c.sig)].now;
    InsideWindowIsForgotten(t, cap, window, c, i);
    NotCheckedSince(t, c.sig);
    var l := LastCheck(t, c.sig);
    SigsOfSuffix(t, i + 1, l + 1);
    CardinalityOfSubset(Sigs(t[l + 1..]), Sigs(t[i + 1..]) - {c.sig});
  }

  lemma NotCheckedSince(t: Trace, sig: Signature)
    ensures sig !in Sigs(t[LastCheck(t, sig) + 1..])
  {
  }

  lemma InsideWindowIsForgotten(t: Trace, cap: nat, window: nat, c: Check, i: nat)
    requires i < |t| && i <= LastAdmission(t, cap, window, c.sig)
    requires t[i].now <= t[LastAdmission(t, cap, window, c.sig)].now
    requires Admits(t, cap, window, c) && 0 <= c.now - t[i].now < window
    ensures LastCheck(t, c.sig) >= i && |Sigs(t[LastCheck(t, c.sig) + 1..])| >= cap
  {
    hide Sigs, LastCheck, LastAdmission;
    CheckedWasAdmitted(t, cap, window, c.sig);
  }

  lemma SigsOfSuffix(t: Trace, i: nat, l: nat)
    requires i <= l <= |t|
    ensures Sigs(t[l..]) <= Sigs(t[i..])
  {
    assert t[l..] == t[i..][l - i..];
  }

  lemma {:induction false} CardinalityOfSubset<T>(a: set<T>, b: set<T>)
    requires a <= b
    ensures |a| <= |b|
  {
    if a != {} {
      var x :| x in a;
      CardinalityOfSubset(a - {x}, b - {x});
    }
  }

  /// A cache that never overflows is an unbounded last-admission map

  type Admissions = map<Signature, Time>

  predicate MapAdmits(m: Admissions, window: nat, c: Check) {
    c.sig in m ==> Elapsed(c.now, m[c.sig]) >= window
  }

  function MapRun(t: Trace, window: nat): Admissions {
    if t == [] then map[]
    else
      var m, c := MapRun(t[..|t| - 1], window), t[|t| - 1];
      if MapAdmits(m, window, c) then m[c.sig := c.now] else m
  }

  lemma {:induction false} RememberedUnlessCrowded(t: Trace, cap: nat, c: Check)
    requires |Sigs(t + [c])| <= cap
    ensures Remembered(t, cap, c.sig) <==> LastCheck(t, c.sig) >= 0
  {
    var i := LastCheck(t, c.sig);
    if i >= 0 {
      var since := Sigs(t[i + 1..]);
      assert c in t + [c];
      assert c.sig !in since;
      forall x | x in t[i + 1..]
        ensures x in t + [c]
      {
      }
      CardinalityOfSubset(since + {c.sig}, Sigs(t + [c]));
    }
  }

  // The map holds the time of each signature's last admission.
  ghost predicate Mirrors(m: Admissions, t: Trace, cap: nat, window: nat) {
    && (forall sig :: sig in m <==> LastAdmission(t, cap, window, sig) >= 0)
    && (forall sig | sig in m :: m[sig] == t[LastAdmission(t, cap, window, sig)].now)
  }

  lemma MirrorAnswers(m: Admissions, t: Trace, cap: nat, window: nat, c: Check)
    requires Mirrors(m, t, cap, window) && |Sigs(t + [c])| <= cap
    ensures Admits(t, cap, window, c) == MapAdmits(m, window, c)
  {
    RememberedUnlessCrowded(t, cap, c);
    CheckedWasAdmitted(t, cap, window, c.sig);
    hide Remembered, LastAdmission, LastCheck, Sigs, Elapsed;
  }

  lemma MirrorSteps(m: Admissions, t: Trace, cap: nat, window: nat, c: Check)
    requires Mirrors(m, t, cap, window) && Admits(t, cap, window, c) == MapAdmits(m, window, c)
    ensures Mirrors(if MapAdmits(m, window, c) then m[c.sig := c.now] else m, t + [c], cap, window)
  {
    hide Admits, MapAdmits, LastAdmission;
    forall sig
      ensures LastAdmission(t + [c], cap, window, sig)
           == if c.sig == sig && Admits(t, cap, window, c) then |t| else LastAdmission(t, cap, window, sig)
    {
      LastAdmissionSnoc(t, cap, window, c, sig);
    }
  }

  lemma {:induction false} MapIsReference(t: Trace, cap: nat, window: nat)
    requires |Sigs(t)| <= cap
    ensures Mirrors(MapRun(t, window), t, cap, window)
    decreases |t|
  {
    if t != [] {
      hide Mirrors, Admits, MapAdmits;
      var front, c := t[..|t| - 1], t[|t| - 1];
      assert t == front + [c];
      SigsSnoc(front, c);
      CardinalityOfSubset(Sigs(front), Sigs(t));
      MapIsReference(front, cap, window);
      MirrorAnswers(MapRun(front, window), front, cap, window, c);
      MirrorSteps(MapRun(front, window), front, cap, window, c);
    }
  }

  /** With no more than cap distinct signatures in all, the cache answers like the unbounded map. */
  lemma RoomyCacheIsUnbounded(t: Trace, cap: nat, window: nat, c: Check)
    requires |Sigs(t + [c])| <= cap
    ensures Admits(t, cap, window, c) == MapAdmits(MapRun(t, window), window, c)
  {
    SigsSnoc(t, c);
    CardinalityOfSubset(Sigs(t), Sigs(t + [c]));
    MapIsReference(t, cap, window);
    MirrorAnswers(MapRun(t, window), t, cap, window, c);
  }
}
