/** The depth-limited walks that encrypt and decrypt personal fields in place, over any object graph. */
module PiiWalk {
  import opened Basics
  import opened EncryptionFormat

  const PII_FIELDS: set<string> := {"nationalId", "passportNo", "phone", "fullName"}
  const MAX_DEPTH := 5

  type NodeId = nat

  /** What a property holds: a string (kept in the store), a reference, null, or some other scalar. */
  datatype Val = Text | Child(node: NodeId) | Null | Scalar
  datatype Kind = Record | List | DateObject
  datatype Entry = Entry(key: string, val: Val)

  /** The object a value refers to, if any. */
  function Targets(v: Val): seq<NodeId> {
    if v.Child? then [v.node] else []
  }

  /** The reference structure of a heap of JavaScript objects; the walks never change it. */
  datatype Graph = Graph(kinds: seq<Kind>, entries: seq<seq<Entry>>)
  {
    ghost predicate Valid() {
      && |kinds| == |entries|
      && (forall x, i :: 0 <= x < |entries| && 0 <= i < |entries[x]| && entries[x][i].val.Child? ==>
            entries[x][i].val.node < |entries|)
      && (forall x, i, j :: 0 <= x < |entries| && 0 <= i < j < |entries[x]| ==> entries[x][i].key != entries[x][j].key)
      && (forall x, i :: 0 <= x < |entries| && 0 <= i < |entries[x]| && kinds[x] == List ==>
            entries[x][i].key !in PII_FIELDS)
      && (forall x :: 0 <= x < |entries| && kinds[x] == DateObject ==> entries[x] == [])
    }

    predicate IsPii(x: NodeId, i: nat)
      requires x < |entries| && i < |entries[x]|
    {
      entries[x][i].key in PII_FIELDS && entries[x][i].val.Text?
    }

    /** The references among the values of some entries. */
    function Children(es: seq<Entry>): seq<NodeId> {
      if es == [] then [] else Targets(es[0].val) + Children(es[1..])
    }

    /** The objects one entry leads to: the elements of an array, nothing for a date, else the object itself. */
    function Steps(e: Entry): seq<NodeId> {
      if !e.val.Child? || e.val.node >= |entries| || e.val.node >= |kinds| then []
      else if kinds[e.val.node] == List then Children(entries[e.val.node])
      else if kinds[e.val.node] == DateObject then []
      else [e.val.node]
    }

    function AllSteps(es: seq<Entry>): seq<NodeId> {
      if es == [] then [] else Steps(es[0]) + AllSteps(es[1..])
    }

    /** Where a walk can go next from object x, with repetitions. */
    function Succ(x: NodeId): seq<NodeId> {
      if x < |entries| then AllSteps(entries[x]) else []
    }

    lemma {:induction false} AllStepsAppend(es: seq<Entry>, e: Entry)
      ensures AllSteps(es + [e]) == AllSteps(es) + Steps(e)
    {
      hide Steps;
      if es == [] {
        assert AllSteps([e]) == Steps(e) + AllSteps([]);
      } else {
        assert (es + [e])[1..] == es[1..] + [e];
        AllStepsAppend(es[1..], e);
      }
    }

    lemma {:induction false} ChildrenAppend(es: seq<Entry>, e: Entry)
      ensures Children(es + [e]) == Children(es) + Targets(e.val)
    {
      hide Targets;
      if es == [] {
        assert Children([e]) == Targets(e.val) + Children([]);
      } else {
        assert (es + [e])[1..] == es[1..] + [e];
        ChildrenAppend(es[1..], e);
      }
    }

    // ----- What the successors are --------------------------------------------------------

    /** The properties of x that refer to the record y. */
    ghost function DirectRefs(x: NodeId, y: NodeId): set<nat>
      requires x < |entries| && y < |kinds|
    {
      set i: nat | i < |entries[x]| && entries[x][i].val == Child(y) && kinds[y] == Record
    }

    /** The properties of x that refer to an array, each with the positions of that array that refer to y. */
    ghost function ElementRefs(x: NodeId, y: NodeId): set<(nat, nat)>
      requires Valid() && x < |entries|
    {
      set i: nat, j: nat |
        i < |entries[x]| && entries[x][i].val.Child? && kinds[entries[x][i].val.node] == List
        && j < |entries[entries[x][i].val.node]| && entries[entries[x][i].val.node][j].val == Child(y)
        :: (i, j)
    }

    /** y follows x once for every property of x that refers to the record y, and once for every element that refers
        to y of an array that a property of x refers to. */
    lemma SuccCountsReferences(x: NodeId, y: NodeId)
      requires Valid() && x < |entries| && y < |entries|
      ensures multiset(Succ(x))[y] == |DirectRefs(x, y)| + |ElementRefs(x, y)|
    {
      hide Steps, Valid;
      StepsCount(x, y, |entries[x]|);
      assert entries[x][..|entries[x]|] == entries[x];
      AllReferences(x, y);
    }

    ghost function DirectUpTo(x: NodeId, y: NodeId, n: nat): set<nat>
      requires x < |entries| && y < |kinds| && n <= |entries[x]|
    {
      set i: nat | i < n && entries[x][i].val == Child(y) && kinds[y] == Record
    }

    ghost function ElementsUpTo(x: NodeId, y: NodeId, n: nat): set<(nat, nat)>
      requires Valid() && x < |entries| && n <= |entries[x]|
    {
      set i: nat, j: nat |
        i < n && entries[x][i].val.Child? && kinds[entries[x][i].val.node] == List
        && j < |entries[entries[x][i].val.node]| && entries[entries[x][i].val.node][j].val == Child(y)
        :: (i, j)
    }

    lemma AllReferences(x: NodeId, y: NodeId)
      requires Valid() && x < |entries| && y < |entries|
      ensures DirectUpTo(x, y, |entries[x]|) == DirectRefs(x, y)
      ensures ElementsUpTo(x, y, |entries[x]|) == ElementRefs(x, y)
    {
    }

    lemma {:induction false} StepsCount(x: NodeId, y: NodeId, n: nat)
      requires Valid() && x < |entries| && y < |entries| && n <= |entries[x]|
      ensures multiset(AllSteps(entries[x][..n]))[y] == |DirectUpTo(x, y, n)| + |ElementsUpTo(x, y, n)|
    {
      hide Steps, AllSteps, DirectUpTo, ElementsUpTo, Valid;
      if n == 0 {
        NoReferences(x, y);
      } else {
        StepsCount(x, y, n - 1);
        assert entries[x][..n] == entries[x][..n - 1] + [entries[x][n - 1]];
        AllStepsAppend(entries[x][..n - 1], entries[x][n - 1]);
        StepCount(x, y, n - 1);
      }
    }

    lemma NoReferences(x: NodeId, y: NodeId)
      requires Valid() && x < |entries| && y < |entries|
      ensures DirectUpTo(x, y, 0) == {} && ElementsUpTo(x, y, 0) == {} && AllSteps(entries[x][..0]) == []
    {
    }

    /** The positions among the first n at which an array refers to y. */
    static ghost function Positions(es: seq<Entry>, y: NodeId, n: nat): set<nat>
      requires n <= |es|
    {
      set j: nat | j < n && es[j].val == Child(y)
    }

    /** One more property: what it adds to the successors is what it adds to the references. */
    lemma StepCount(x: NodeId, y: NodeId, i: nat)
      requires Valid() && x < |entries| && y < |entries| && i < |entries[x]|
      ensures multiset(Steps(entries[x][i]))[y] + |DirectUpTo(x, y, i)| + |ElementsUpTo(x, y, i)|
           == |DirectUpTo(x, y, i + 1)| + |ElementsUpTo(x, y, i + 1)|
    {
      hide DirectUpTo, ElementsUpTo, Positions;
      DirectStep(x, y, i);
      ElementsStep(x, y, i);
      var v := entries[x][i].val;
      assert v.Child? ==> v.node < |entries| == |kinds|;
      if v.Child? && kinds[v.node] == List {
        ChildrenCount(entries[v.node], y, |entries[v.node]|);
        assert entries[v.node][..|entries[v.node]|] == entries[v.node];
      }
    }

    lemma DirectStep(x: NodeId, y: NodeId, i: nat)
      requires Valid() && x < |entries| && y < |entries| && i < |entries[x]|
      ensures |DirectUpTo(x, y, i + 1)|
           == |DirectUpTo(x, y, i)| + if entries[x][i].val == Child(y) && kinds[y] == Record then 1 else 0
    {
      var direct := entries[x][i].val == Child(y) && kinds[y] == Record;
      assert DirectUpTo(x, y, i + 1) == DirectUpTo(x, y, i) + if direct then {i} else {};
    }

    lemma ElementsStep(x: NodeId, y: NodeId, i: nat)
      requires Valid() && x < |entries| && i < |entries[x]|
      ensures var v := entries[x][i].val;
        |ElementsUpTo(x, y, i + 1)| == |ElementsUpTo(x, y, i)|
          + if v.Child? && kinds[v.node] == List then |Positions(entries[v.node], y, |entries[v.node]|)| else 0
    {
      var v := entries[x][i].val;
      assert v.Child? ==> v.node < |entries| == |kinds|;
      if v.Child? && kinds[v.node] == List {
        var js := Positions(entries[v.node], y, |entries[v.node]|);
        var pairs := set j | j in js :: (i, j);
        assert ElementsUpTo(x, y, i + 1) == ElementsUpTo(x, y, i) + pairs;
        PairsCount(js, i, pairs);
      } else {
        assert ElementsUpTo(x, y, i + 1) == ElementsUpTo(x, y, i);
      }
    }

    static lemma {:induction false} PairsCount(js: set<nat>, i: nat, pairs: set<(nat, nat)>)
      requires pairs == set j | j in js :: (i, j)
      ensures |pairs| == |js|
    {
      if js != {} {
        var j :| j in js;
        var rest := set k | k in js - {j} :: (i, k);
        PairsCount(js - {j}, i, rest);
        assert pairs == rest + {(i, j)};
      } else {
        assert pairs == {};
      }
    }

    lemma {:induction false} ChildrenCount(es: seq<Entry>, y: NodeId, n: nat)
      requires n <= |es|
      ensures multiset(Children(es[..n]))[y] == |Positions(es, y, n)|
    {
      hide Children, Positions;
      if n == 0 {
        NoPositions(es, y);
      } else {
        ChildrenCount(es, y, n - 1);
        assert es[..n] == es[..n - 1] + [es[n - 1]];
        ChildrenAppend(es[..n - 1], es[n - 1]);
        PositionsStep(es, y, n - 1);
      }
    }

    lemma NoPositions(es: seq<Entry>, y: NodeId)
      ensures Positions(es, y, 0) == {} && Children(es[..0]) == []
    {
    }

    static lemma PositionsStep(es: seq<Entry>, y: NodeId, n: nat)
      requires n < |es|
      ensures |Positions(es, y, n + 1)| == |Positions(es, y, n)| + if es[n].val == Child(y) then 1 else 0
    {
      assert Positions(es, y, n + 1) == Positions(es, y, n) + if es[n].val == Child(y) then {n} else {};
    }

    // ----- Counting visits -------------------------------------------------------------

    /** How often a traversal that starts at x and may still go n - 1 steps visits y. */
    ghost function Visits(x: NodeId, y: NodeId, n: nat): nat
      decreases n, 0, 0
    {
      if n == 0 then 0 else (if x == y then 1 else 0) + SumVisits(Succ(x), y, n - 1)
    }

    ghost function SumVisits(ts: seq<NodeId>, y: NodeId, n: nat): nat
      decreases n, 1, |ts|
    {
      if ts == [] then 0 else Visits(ts[0], y, n) + SumVisits(ts[1..], y, n)
    }

    lemma {:induction false} SumVisitsAppend(ts: seq<NodeId>, us: seq<NodeId>, y: NodeId, n: nat)
      ensures SumVisits(ts + us, y, n) == SumVisits(ts, y, n) + SumVisits(us, y, n)
    {
      if ts == [] {
        assert ts + us == us;
      } else {
        assert (ts + us)[1..] == ts[1..] + us;
        SumVisitsAppend(ts[1..], us, y, n);
      }
    }

    lemma {:induction false} VisitsMonotone(x: NodeId, y: NodeId, n: nat, m: nat)
      requires n <= m
      ensures Visits(x, y, n) <= Visits(x, y, m)
      decreases n, 0, 0
    {
      if n > 0 { SumVisitsMonotone(Succ(x), y, n - 1, m - 1); }
    }

    lemma {:induction false} SumVisitsMonotone(ts: seq<NodeId>, y: NodeId, n: nat, m: nat)
      requires n <= m
      ensures SumVisits(ts, y, n) <= SumVisits(ts, y, m)
      decreases n, 1, |ts|
    {
      if ts != [] {
        VisitsMonotone(ts[0], y, n, m);
        SumVisitsMonotone(ts[1..], y, n, m);
      }
    }

    // ----- Visits are walks -------------------------------------------------------------

    /** p, a list of branch choices, leads from x to y. */
    ghost predicate IsWalk(x: NodeId, p: seq<nat>, y: NodeId)
      decreases |p|
    {
      if p == [] then x == y else p[0] < |Succ(x)| && IsWalk(Succ(x)[p[0]], p[1..], y)
    }

    /** All walks from x to y of fewer than n steps. */
    ghost function WalkList(x: NodeId, y: NodeId, n: nat): seq<seq<nat>>
      decreases n, 0, 0
    {
      if n == 0 then [] else (if x == y then [[]] else []) + BranchWalks(Succ(x), 0, y, n - 1)
    }

    ghost function BranchWalks(ts: seq<NodeId>, i: nat, y: NodeId, n: nat): seq<seq<nat>>
      requires i <= |ts|
      decreases n, 1, |ts| - i
    {
      if i == |ts| then [] else Prefixed(i, WalkList(ts[i], y, n)) + BranchWalks(ts, i + 1, y, n)
    }

    static ghost function Prefixed(i: nat, walks: seq<seq<nat>>): (r: seq<seq<nat>>)
      ensures |r| == |walks| && forall k :: 0 <= k < |r| ==> r[k] == [i] + walks[k]
    {
      seq(|walks|, k requires 0 <= k < |walks| => [i] + walks[k])
    }

    static ghost predicate Distinct(walks: seq<seq<nat>>) {
      forall i, j :: 0 <= i < j < |walks| ==> walks[i] != walks[j]
    }

    /** The list is complete and free of repetitions, and its length is the number of visits:
        visits are counted by the walks of length less than n. */
    lemma {:induction false} VisitsCountWalks(x: NodeId, y: NodeId, n: nat)
      ensures |WalkList(x, y, n)| == Visits(x, y, n) && Distinct(WalkList(x, y, n))
      ensures forall p :: p in WalkList(x, y, n) <==> |p| < n && IsWalk(x, p, y)
      decreases n, 0, 0
    {
      hide Succ, IsWalk, BranchWalks, SumVisits;
      if n > 0 {
        var ts := Succ(x);
        BranchesCountWalks(ts, 0, y, n - 1);
        assert ts[0..] == ts;
        var own: seq<seq<nat>>, rest := if x == y then [[]] else [], BranchWalks(ts, 0, y, n - 1);
        assert WalkList(x, y, n) == own + rest;
        forall p: seq<nat> ensures p in own + rest <==> |p| < n && IsWalk(x, p, y) {
          WalkStep(x, p, y);
        }
        assert Distinct(own + rest) by {
          assert forall k :: 0 <= k < |rest| ==> rest[k] in rest;
        }
      }
    }

    lemma WalkStep(x: NodeId, p: seq<nat>, y: NodeId)
      ensures IsWalk(x, [], y) <==> x == y
      ensures p != [] ==> (IsWalk(x, p, y) <==> p[0] < |Succ(x)| && IsWalk(Succ(x)[p[0]], p[1..], y))
    {
    }

    lemma {:induction false} BranchesCountWalks(ts: seq<NodeId>, i: nat, y: NodeId, n: nat)
      requires i <= |ts|
      ensures |BranchWalks(ts, i, y, n)| == SumVisits(ts[i..], y, n) && Distinct(BranchWalks(ts, i, y, n))
      ensures forall p :: p in BranchWalks(ts, i, y, n) ==> p != []
      ensures forall p :: p != [] ==>
        (p in BranchWalks(ts, i, y, n) <==> i <= p[0] < |ts| && |p[1..]| < n && IsWalk(ts[p[0]], p[1..], y))
      decreases n, 1, |ts| - i
    {
      hide Succ, IsWalk, WalkList, Visits, Distinct, BranchWalks, SumVisits;
      NoneDistinct();
      FirstBranch(ts, i, y, n);
      if i < |ts| {
        VisitsCountWalks(ts[i], y, n);
        BranchesCountWalks(ts, i + 1, y, n);
        var walks, rest := WalkList(ts[i], y, n), BranchWalks(ts, i + 1, y, n);
        var first := Prefixed(i, walks);
        assert BranchWalks(ts, i, y, n) == first + rest;
        PrefixedMembers(i, walks);
        forall p | p != []
          ensures p in first + rest <==> i <= p[0] < |ts| && |p[1..]| < n && IsWalk(ts[p[0]], p[1..], y)
        {
          assert p in first + rest <==> p in first || p in rest;
          assert p in first <==> p[0] == i && p[1..] in walks;
        }
        DistinctParts(first, rest, i);
      }
    }

    lemma FirstBranch(ts: seq<NodeId>, i: nat, y: NodeId, n: nat)
      requires i <= |ts|
      ensures i == |ts| ==> BranchWalks(ts, i, y, n) == [] && SumVisits(ts[i..], y, n) == 0
      ensures i < |ts| ==>
        && BranchWalks(ts, i, y, n) == Prefixed(i, WalkList(ts[i], y, n)) + BranchWalks(ts, i + 1, y, n)
        && SumVisits(ts[i..], y, n) == Visits(ts[i], y, n) + SumVisits(ts[i + 1..], y, n)
    {
      hide WalkList, Visits;
      if i < |ts| { assert ts[i..][1..] == ts[i + 1..]; }
    }

    static lemma NoneDistinct()
      ensures Distinct([])
    {
    }

    static lemma DistinctParts(first: seq<seq<nat>>, rest: seq<seq<nat>>, i: nat)
      requires Distinct(first) && Distinct(rest)
      requires forall p :: p in first ==> p != [] && p[0] == i
      requires forall p :: p in rest ==> p != [] && p[0] > i
      ensures Distinct(first + rest)
    {
      assert forall k :: 0 <= k < |first| ==> first[k] in first;
      assert forall k :: 0 <= k < |rest| ==> rest[k] in rest;
    }

    lemma PrefixedMembers(i: nat, walks: seq<seq<nat>>)
      ensures forall p :: p in Prefixed(i, walks) <==> p != [] && p[0] == i && p[1..] in walks
      ensures Distinct(walks) ==> Distinct(Prefixed(i, walks))
    {
      var first := Prefixed(i, walks);
      assert forall k :: 0 <= k < |first| ==> first[k][0] == i && first[k][1..] == walks[k];
      forall p | p != [] && p[0] == i && p[1..] in walks ensures p in first {
        var k :| 0 <= k < |walks| && walks[k] == p[1..];
        assert first[k] == p;
      }
    }

    /** A traversal with a larger budget visits y no more often exactly if no walk of a length in between ends there. */
    lemma {:induction false} SameVisitsIff(x: NodeId, y: NodeId, n: nat, m: nat)
      requires n <= m
      ensures Visits(x, y, n) == Visits(x, y, m) <==> forall p: seq<nat> :: n <= |p| < m ==> !IsWalk(x, p, y)
      decreases n, 0, 0
    {
      hide Succ, IsWalk, SumVisits, WalkList;
      if n == 0 {
        VisitsCountWalks(x, y, m);
        NoneListed(WalkList(x, y, m));
      } else {
        var ts := Succ(x);
        SameSumIff(ts, y, n - 1, m - 1);
        forall p: seq<nat> | p != [] ensures IsWalk(x, p, y) <==> IsBranchWalk(ts, p[0], p[1..], y) {
          WalkStep(x, p, y);
        }
        forall i: nat, q | n - 1 <= |q| < m - 1 && IsBranchWalk(ts, i, q, y)
          ensures exists p: seq<nat> :: n <= |p| < m && IsWalk(x, p, y)
        {
          assert ([i] + q)[1..] == q;
          assert IsWalk(x, [i] + q, y);
        }
      }
    }

    /** Branch i of ts starts a walk to y. */
    ghost predicate IsBranchWalk(ts: seq<NodeId>, i: nat, q: seq<nat>, y: NodeId) {
      i < |ts| && IsWalk(ts[i], q, y)
    }

    static lemma NoneListed(walks: seq<seq<nat>>)
      ensures |walks| == 0 <==> forall p :: p !in walks
    {
      if |walks| > 0 { assert walks[0] in walks; }
    }

    /** The same for all branches together. */
    lemma {:induction false} SameSumIff(ts: seq<NodeId>, y: NodeId, n: nat, m: nat)
      requires n <= m
      ensures SumVisits(ts, y, n) == SumVisits(ts, y, m) <==>
        forall i: nat, q :: n <= |q| < m ==> !IsBranchWalk(ts, i, q, y)
      decreases n, 1, |ts|
    {
      hide IsWalk, Visits;
      if ts != [] {
        SameVisitsIff(ts[0], y, n, m);
        SameSumIff(ts[1..], y, n, m);
        VisitsMonotone(ts[0], y, n, m);
        SumVisitsMonotone(ts[1..], y, n, m);
        assert forall q :: IsBranchWalk(ts, 0, q, y) <==> IsWalk(ts[0], q, y);
        assert forall i: nat, q :: IsBranchWalk(ts[1..], i, q, y) ==> IsBranchWalk(ts, i + 1, q, y);
        assert forall i: nat, q :: i > 0 && IsBranchWalk(ts, i, q, y) ==> IsBranchWalk(ts[1..], i - 1, q, y);
      }
    }
  }

  // ----- What a walk does to the stored strings ---------------------------------------------

  type Slot = (NodeId, string)
  datatype Direction = Encrypting | Decrypting

  /** k rewrites in the given direction take one string to the other. */
  ghost predicate Rewritten(c: Cipher, dir: Direction, k: nat, before: string, after: string) {
    match dir
    case Encrypting => Layered(c, k, before, after)
    case Decrypting => after == Peel(c, k, before)
  }

  /** Every string is rewritten as often as count says, and no string appears or disappears. */
  ghost predicate AllRewritten(c: Cipher, dir: Direction, count: Slot -> nat, before: map<Slot, string>,
                               after: map<Slot, string>) {
    && after.Keys == before.Keys
    && forall slot :: slot in before ==> Rewritten(c, dir, count(slot), before[slot], after[slot])
  }

  /** Personal fields of an object are rewritten once per visit; no other string is touched. */
  ghost function VisitCount(g: Graph, ts: seq<NodeId>, n: nat): Slot -> nat {
    (slot: Slot) => if slot.1 in PII_FIELDS then g.SumVisits(ts, slot.0, n) else 0
  }

  /** The rewrite of the fields of x among its first i entries. */
  ghost function OwnCount(g: Graph, x: NodeId, i: nat): Slot -> nat
    requires x < |g.entries| && i <= |g.entries[x]|
  {
    (slot: Slot) =>
      if slot.0 == x && exists j :: 0 <= j < i && g.IsPii(x, j) && g.entries[x][j].key == slot.1 then 1 else 0
  }

  ghost function Plus(f: Slot -> nat, h: Slot -> nat): Slot -> nat {
    (slot: Slot) => f(slot) + h(slot)
  }

  /** The rewrite of a walk that has dealt with the first i entries of x. */
  ghost function PartialCount(g: Graph, x: NodeId, i: nat, n: nat): Slot -> nat
    requires x < |g.entries| && i <= |g.entries[x]| && n > 0
  {
    Plus(VisitCount(g, g.AllSteps(g.entries[x][..i]), n - 1), OwnCount(g, x, i))
  }

  lemma {:induction false} RewrittenCompose(c: Cipher, dir: Direction, j: nat, k: nat, r: string, s: string, t: string)
    requires Rewritten(c, dir, j, r, s) && Rewritten(c, dir, k, s, t)
    ensures Rewritten(c, dir, j + k, r, t)
  {
    hide Encrypt, Decrypt;
    if k > 0 {
      match dir
      case Encrypting =>
        var iv, inner :| IsLayer(c, iv, inner, t) && Layered(c, k - 1, s, inner);
        RewrittenCompose(c, dir, j, k - 1, r, s, inner);
        AddLayer(c, j + k - 1, r, inner, iv);
      case Decrypting =>
        RewrittenCompose(c, dir, j, k - 1, r, s, Peel(c, k - 1, s));
    }
  }

  lemma AllCompose(c: Cipher, dir: Direction, f: Slot -> nat, h: Slot -> nat, sum: Slot -> nat,
                   r: map<Slot, string>, s: map<Slot, string>, t: map<Slot, string>)
    requires AllRewritten(c, dir, f, r, s) && AllRewritten(c, dir, h, s, t)
    requires forall slot :: slot in r ==> sum(slot) == f(slot) + h(slot)
    ensures AllRewritten(c, dir, sum, r, t)
  {
    hide Rewritten;
    forall slot | slot in r ensures Rewritten(c, dir, sum(slot), r[slot], t[slot]) {
      RewrittenCompose(c, dir, f(slot), h(slot), r[slot], s[slot], t[slot]);
    }
  }

  /** Reading leaves clear text as it is, however often it is visited. */
  lemma ClearTextStays(c: Cipher, count: Slot -> nat, before: map<Slot, string>, after: map<Slot, string>)
    requires AllRewritten(c, Decrypting, count, before, after)
    ensures forall slot :: slot in before && Untouchable(before[slot]) ==> after[slot] == before[slot]
  {
    hide Untouchable, Peel;
    forall slot | slot in before && Untouchable(before[slot]) ensures after[slot] == before[slot] {
      assert Rewritten(c, Decrypting, count(slot), before[slot], after[slot]);
      UntouchableStays(c, count(slot), before[slot]);
    }
  }

  lemma NothingRewritten(c: Cipher, dir: Direction, count: Slot -> nat, text: map<Slot, string>)
    requires forall slot :: slot in text ==> count(slot) == 0
    ensures AllRewritten(c, dir, count, text, text)
  {
  }

  /** What is stored, with the strings in `copy` replaced by the stored strings they are copies of. */
  function Loaded(stored: map<Slot, string>, copy: map<Slot, Slot>): (loaded: map<Slot, string>)
    requires forall slot :: slot in copy ==> copy[slot] in stored
    ensures loaded.Keys == stored.Keys
  {
    map slot | slot in stored :: if slot in copy then stored[copy[slot]] else stored[slot]
  }

  lemma NothingLoaded(stored: map<Slot, string>)
    ensures Loaded(stored, map[]) == stored
  {
  }

  /** Steps left at a given recursion depth. */
  function Budget(depth: nat): nat {
    if depth > MAX_DEPTH then 0 else MAX_DEPTH + 1 - depth
  }

  class PiiStore {
    const graph: Graph
    const cipher: Cipher
    var text: map<Slot, string>
    var stored: map<Slot, string>

    /** The store has a string for every string property, and personal fields only where the graph has them. */
    ghost predicate Valid()
      reads this
    {
      && graph.Valid()
      && (forall x, i :: 0 <= x < |graph.entries| && 0 <= i < |graph.entries[x]| && graph.entries[x][i].val.Text? ==>
           (x, graph.entries[x][i].key) in text)
      && (forall slot :: slot in text && slot.1 in PII_FIELDS ==> HasField(slot))
    }

    ghost predicate HasField(slot: Slot) {
      && slot.0 < |graph.entries|
      && exists i ::
           0 <= i < |graph.entries[slot.0]| && graph.IsPii(slot.0, i) && graph.entries[slot.0][i].key == slot.1
    }

    /** Stands for twelve random bytes. */
    method RandomIv() returns (iv: seq<byte>)
      ensures |iv| == IV_BYTES
    {
      iv := [];
      while |iv| < IV_BYTES
        invariant |iv| <= IV_BYTES
      {
        var b: byte := *;
        iv := iv + [b];
      }
    }

    /** Encrypt one string, or decrypt it and keep it when decryption fails. */
    method RewriteString(dir: Direction, s: string) returns (r: string)
      ensures Rewritten(cipher, dir, 1, s, r)
    {
      hide Encrypt, Decrypt;
      match dir
      case Encrypting =>
        var iv := RandomIv();
        r := Encrypt(cipher, iv, s);
        AddLayer(cipher, 0, s, s, iv);
      case Decrypting =>
        r := Unwrap(cipher, s);
        assert Peel(cipher, 0, s) == s;
    }

    /** The shared traversal of encryptPii and decryptRecord: visit v if it is an object and not too deep. */
    method Walk(dir: Direction, v: Val, depth: nat)
      requires Valid() && (v.Child? ==> v.node < |graph.entries|)
      modifies this`text
      ensures Valid() && AllRewritten(cipher, dir, VisitCount(graph, Targets(v), Budget(depth)), old(text), text)
      decreases Budget(depth), 2, 0
    {
      hide Rewritten;
      if !v.Child? || depth > MAX_DEPTH {
        NoVisits(Targets(v));
        NothingRewritten(cipher, dir, VisitCount(graph, Targets(v), Budget(depth)), text);
        return;
      }
      var x, n, i := v.node, Budget(depth), 0;
      ghost var before := text;
      NothingRewritten(cipher, dir, PartialCount(graph, x, 0, n), text);
      while i < |graph.entries[x]|
        invariant 0 <= i <= |graph.entries[x]| && Valid()
        invariant AllRewritten(cipher, dir, PartialCount(graph, x, i, n), before, text)
      {
        ghost var middle := text;
        WalkEntry(dir, x, i, depth);
        OneMoreEntry(dir, x, i, n, before, middle, text);
        i := i + 1;
      }
      assert graph.entries[x][..i] == graph.entries[x];
      WholeObject(dir, x, n, before, text);
    }

    /** One property: rewrite a personal string, descend into arrays and objects, skip the rest. */
    method WalkEntry(dir: Direction, x: NodeId, i: nat, depth: nat)
      requires Valid() && x < |graph.entries| && i < |graph.entries[x]| && depth <= MAX_DEPTH
      modifies this`text
      ensures Valid()
      ensures AllRewritten(cipher, dir, EntryCount(x, i, Budget(depth + 1)), old(text), text)
      decreases Budget(depth), 1, 0
    {
      hide Rewritten;
      var e := graph.entries[x][i];
      if e.key in PII_FIELDS && e.val.Text? {
        var slot := (x, e.key);
        var rewritten := RewriteString(dir, text[slot]);
        text := text[slot := rewritten];
        OneString(dir, x, i, Budget(depth + 1), old(text), text);
      } else if e.val.Child? && graph.kinds[e.val.node] == List {
        WalkList(dir, e.val.node, depth);
        SameCount(dir, VisitCount(graph, graph.Steps(e), Budget(depth + 1)), EntryCount(x, i, Budget(depth + 1)),
                  old(text), text);
      } else if e.val.Child? && graph.kinds[e.val.node] == DateObject {
        NoVisits([]);
        NothingRewritten(cipher, dir, EntryCount(x, i, Budget(depth + 1)), text);
      } else {
        Walk(dir, e.val, depth + 1);
        SameCount(dir, VisitCount(graph, Targets(e.val), Budget(depth + 1)), EntryCount(x, i, Budget(depth + 1)),
                  old(text), text);
      }
    }

    /** The elements of an array are visited one level below the object that holds it. */
    method WalkList(dir: Direction, list: NodeId, depth: nat)
      requires Valid() && list < |graph.entries| && depth <= MAX_DEPTH
      modifies this`text
      ensures Valid()
      ensures AllRewritten(cipher, dir, VisitCount(graph, graph.Children(graph.entries[list]), Budget(depth + 1)),
                           old(text), text)
      decreases Budget(depth), 0, 0
    {
      hide AllRewritten, Graph.SumVisits;
      var elements, n, j := graph.entries[list], Budget(depth + 1), 0;
      ghost var before := text;
      NoTargets(n);
      NothingRewritten(cipher, dir, VisitCount(graph, [], n), text);
      while j < |elements|
        invariant 0 <= j <= |elements| && Valid()
        invariant AllRewritten(cipher, dir, VisitCount(graph, graph.Children(elements[..j]), n), before, text)
      {
        ghost var middle := text;
        Walk(dir, elements[j].val, depth + 1);
        assert elements[..j + 1] == elements[..j] + [elements[j]];
        graph.ChildrenAppend(elements[..j], elements[j]);
        AddTargets(dir, graph.Children(elements[..j]), Targets(elements[j].val), n, before, middle, text);
        j := j + 1;
      }
      assert elements[..j] == elements;
    }

    method EncryptPii(data: Val, depth: nat)
      requires Valid() && (data.Child? ==> data.node < |graph.entries|)
      modifies this`text
      ensures Valid()
      ensures AllRewritten(cipher, Encrypting, VisitCount(graph, Targets(data), Budget(depth)), old(text), text)
    {
      Walk(Encrypting, data, depth);
    }

    method DecryptRecord(record: Val, depth: nat)
      requires Valid() && (record.Child? ==> record.node < |graph.entries|)
      modifies this`text
      ensures Valid()
      ensures AllRewritten(cipher, Decrypting, VisitCount(graph, Targets(record), Budget(depth)), old(text), text)
      ensures forall slot :: slot in text && Untouchable(old(text[slot])) ==> text[slot] == old(text[slot])
    {
      Walk(Decrypting, record, depth);
      ClearTextStays(cipher, VisitCount(graph, Targets(record), Budget(depth)), old(text), text);
    }

    // ----- Entry points of the extended client ---------------------------------------------

    /** The values the query engine hands back: strings in `copy` come from what is stored, the others are untouched. */
    ghost predicate IsCopy(copy: map<Slot, Slot>)
      reads this
    {
      forall slot :: slot in copy ==> slot in text && copy[slot] in text
    }

    /** create: encrypt the data, let the query store it and answer with a record of its own, decrypt that record. */
    method Create(data: Val, result: Val, copy: map<Slot, Slot>)
      requires Valid() && IsCopy(copy)
      requires (data.Child? ==> data.node < |graph.entries|) && (result.Child? ==> result.node < |graph.entries|)
      modifies this
      ensures Valid()
      ensures AllRewritten(cipher, Encrypting, VisitCount(graph, Targets(data), Budget(0)), old(text), stored)
      ensures AllRewritten(cipher, Decrypting, VisitCount(graph, Targets(result), Budget(0)), Loaded(stored, copy),
                           text)
      ensures cipher.Lawful() && result == data && copy == map[] ==> text == old(text)
    {
      hide Rewritten;
      EncryptPii(data, 0);
      stored := text;
      text := Loaded(stored, copy);
      DecryptRecord(result, 0);
      if cipher.Lawful() && result == data && copy == map[] {
        NothingLoaded(stored);
        WalksInvert(cipher, VisitCount(graph, Targets(data), Budget(0)), old(text), stored, text);
      }
    }

    /** findUnique and findMany: load what is stored and decrypt it from the returned value, record or array. */
    method Find(result: Val, copy: map<Slot, Slot>)
      requires Valid() && stored.Keys == text.Keys && IsCopy(copy) && (result.Child? ==> result.node < |graph.entries|)
      modifies this`text
      ensures Valid()
      ensures AllRewritten(cipher, Decrypting, VisitCount(graph, Targets(result), Budget(0)), Loaded(stored, copy),
                           text)
    {
      text := Loaded(stored, copy);
      DecryptRecord(result, 0);
    }

    /** createMany of user, bookingPassenger and booking: data.map(encryptPii) hands each index over as the depth. */
    method CreateManyMapped(rows: seq<Val>)
      requires Valid() && forall i :: 0 <= i < |rows| && rows[i].Child? ==> rows[i].node < |graph.entries|
      modifies this
      ensures Valid() && stored == text
      ensures AllRewritten(cipher, Encrypting, RowsCount(graph, rows, true), old(text), stored)
    {
      EncryptRows(rows, true);
      stored := text;
    }

    /** createMany of auditLog: data.map(d => encryptPii(d)) starts every element at depth 0. */
    method CreateManyPlain(rows: seq<Val>)
      requires Valid() && forall i :: 0 <= i < |rows| && rows[i].Child? ==> rows[i].node < |graph.entries|
      modifies this
      ensures Valid() && stored == text
      ensures AllRewritten(cipher, Encrypting, RowsCount(graph, rows, false), old(text), stored)
    {
      EncryptRows(rows, false);
      stored := text;
    }

    method EncryptRows(rows: seq<Val>, indexAsDepth: bool)
      requires Valid() && forall i :: 0 <= i < |rows| && rows[i].Child? ==> rows[i].node < |graph.entries|
      modifies this`text
      ensures Valid() && AllRewritten(cipher, Encrypting, RowsCount(graph, rows, indexAsDepth), old(text), text)
    {
      hide AllRewritten, RowsCount, VisitCount, Budget;
      var i := 0;
      ghost var before := text;
      NoRows(graph, indexAsDepth, text);
      NothingRewritten(cipher, Encrypting, RowsCount(graph, [], indexAsDepth), text);
      assert rows[..0] == [];
      while i < |rows|
        invariant 0 <= i <= |rows| && Valid()
        invariant AllRewritten(cipher, Encrypting, RowsCount(graph, rows[..i], indexAsDepth), before, text)
      {
        ghost var middle := text;
        EncryptPii(rows[i], if indexAsDepth then i else 0);
        OneMoreRow(cipher, graph, rows, i, indexAsDepth, before, middle, text);
        i := i + 1;
      }
      assert rows[..i] == rows;
    }

    // ----- Counting lemmas for the traversal ---------------------------------------------

    /** What processing entry i of x contributes. */
    ghost function EntryCount(x: NodeId, i: nat, n: nat): Slot -> nat
      requires x < |graph.entries| && i < |graph.entries[x]|
    {
      (slot: Slot) =>
        (if slot.1 in PII_FIELDS then graph.SumVisits(graph.Steps(graph.entries[x][i]), slot.0, n) else 0)
        + if slot == (x, graph.entries[x][i].key) && graph.IsPii(x, i) then 1 else 0
    }

    lemma NoTargets(n: nat)
      ensures forall slot :: VisitCount(graph, [], n)(slot) == 0
    {
    }

    lemma NoVisits(ts: seq<NodeId>)
      ensures forall y :: graph.SumVisits([], y, 0) == 0
      ensures |ts| <= 1 ==> forall y :: graph.SumVisits(ts, y, 0) == 0
    {
      forall y ensures |ts| <= 1 ==> graph.SumVisits(ts, y, 0) == 0 {
        if |ts| == 1 { assert graph.SumVisits(ts, y, 0) == graph.Visits(ts[0], y, 0) + graph.SumVisits(ts[1..], y, 0); }
      }
    }

    lemma SameCount(dir: Direction, f: Slot -> nat, h: Slot -> nat, r: map<Slot, string>, s: map<Slot, string>)
      requires AllRewritten(cipher, dir, f, r, s) && forall slot :: slot in r ==> f(slot) == h(slot)
      ensures AllRewritten(cipher, dir, h, r, s)
    {
      hide Rewritten;
    }

    lemma AddTargets(dir: Direction, ts: seq<NodeId>, us: seq<NodeId>, n: nat, r: map<Slot, string>, s: map<Slot,
                     string>, t: map<Slot, string>)
      requires AllRewritten(cipher, dir, VisitCount(graph, ts, n), r, s) && AllRewritten(cipher, dir,
                                                                                         VisitCount(graph, us, n), s, t)
      ensures AllRewritten(cipher, dir, VisitCount(graph, ts + us, n), r, t)
    {
      hide Rewritten;
      forall slot | slot in r
        ensures VisitCount(graph, ts + us, n)(slot) == VisitCount(graph, ts, n)(slot) + VisitCount(graph, us, n)(slot)
      {
        graph.SumVisitsAppend(ts, us, slot.0, n);
      }
      AllCompose(cipher, dir, VisitCount(graph, ts, n), VisitCount(graph, us, n), VisitCount(graph, ts + us, n), r, s,
                 t);
    }

    lemma OneString(dir: Direction, x: NodeId, i: nat, n: nat, r: map<Slot, string>, s: map<Slot, string>)
      requires graph.Valid() && x < |graph.entries| && i < |graph.entries[x]| && graph.IsPii(x, i)
      requires var slot := (x, graph.entries[x][i].key);
               slot in r && slot in s && s == r[slot := s[slot]] && Rewritten(cipher, dir, 1, r[slot], s[slot])
      ensures AllRewritten(cipher, dir, EntryCount(x, i, n), r, s)
    {
    }

    lemma OneMoreEntry(dir: Direction, x: NodeId, i: nat, n: nat, r: map<Slot, string>, s: map<Slot, string>,
                       t: map<Slot, string>)
      requires graph.Valid() && x < |graph.entries| && i < |graph.entries[x]| && n > 0
      requires AllRewritten(cipher, dir, PartialCount(graph, x, i, n), r, s)
      requires AllRewritten(cipher, dir, EntryCount(x, i, n - 1), s, t)
      ensures AllRewritten(cipher, dir, PartialCount(graph, x, i + 1, n), r, t)
    {
      hide Rewritten, PartialCount, EntryCount;
      var f, sum := PartialCount(graph, x, i, n), PartialCount(graph, x, i + 1, n);
      forall slot | slot in r ensures sum(slot) == f(slot) + EntryCount(x, i, n - 1)(slot) {
        EntryAtSlot(x, i, n, slot);
      }
      AllCompose(cipher, dir, f, EntryCount(x, i, n - 1), sum, r, s, t);
    }

    lemma EntryAtSlot(x: NodeId, i: nat, n: nat, slot: Slot)
      requires graph.Valid() && x < |graph.entries| && i < |graph.entries[x]| && n > 0
      ensures PartialCount(graph, x, i + 1, n)(slot)
           == PartialCount(graph, x, i, n)(slot) + EntryCount(x, i, n - 1)(slot)
    {
      hide OwnCount, Graph.SumVisits, Graph.AllSteps, Graph.Steps, Graph.IsPii;
      StepsSplit(x, i, slot.0, n - 1);
      OwnStep(x, i, slot);
    }

    lemma StepsSplit(x: NodeId, i: nat, y: NodeId, n: nat)
      requires x < |graph.entries| && i < |graph.entries[x]|
      ensures graph.SumVisits(graph.AllSteps(graph.entries[x][..i + 1]), y, n)
           == graph.SumVisits(graph.AllSteps(graph.entries[x][..i]), y, n)
              + graph.SumVisits(graph.Steps(graph.entries[x][i]), y, n)
    {
      var es := graph.entries[x];
      assert es[..i + 1] == es[..i] + [es[i]];
      graph.AllStepsAppend(es[..i], es[i]);
      graph.SumVisitsAppend(graph.AllSteps(es[..i]), graph.Steps(es[i]), y, n);
    }

    lemma OwnStep(x: NodeId, i: nat, slot: Slot)
      requires graph.Valid() && x < |graph.entries| && i < |graph.entries[x]|
      ensures OwnCount(graph, x, i + 1)(slot)
           == OwnCount(graph, x, i)(slot) + if slot == (x, graph.entries[x][i].key) && graph.IsPii(x, i) then 1 else 0
    {
    }

    lemma WholeObject(dir: Direction, x: NodeId, n: nat, r: map<Slot, string>, s: map<Slot, string>)
      requires graph.Valid() && x < |graph.entries| && n > 0
      requires forall slot :: slot in r && slot.1 in PII_FIELDS ==> HasField(slot)
      requires AllRewritten(cipher, dir, PartialCount(graph, x, |graph.entries[x]|, n), r, s)
      ensures AllRewritten(cipher, dir, VisitCount(graph, [x], n), r, s)
    {
      hide Rewritten;
      var f := PartialCount(graph, x, |graph.entries[x]|, n);
      assert graph.entries[x][..|graph.entries[x]|] == graph.entries[x];
      forall slot | slot in r ensures f(slot) == VisitCount(graph, [x], n)(slot) {
        assert graph.SumVisits([x], slot.0, n) == graph.Visits(x, slot.0, n) + graph.SumVisits([], slot.0, n);
        if slot.1 in PII_FIELDS && slot.0 == x { assert HasField(slot); }
      }
      SameCount(dir, f, VisitCount(graph, [x], n), r, s);
    }
  }

  /** Layers of the rows of a createMany. */
  ghost function RowsCount(g: Graph, rows: seq<Val>, indexAsDepth: bool): Slot -> nat {
    (slot: Slot) => if slot.1 in PII_FIELDS then RowVisits(g, rows, slot.0, indexAsDepth) else 0
  }

  lemma NoRows(g: Graph, indexAsDepth: bool, text: map<Slot, string>)
    ensures forall slot :: slot in text ==> RowsCount(g, [], indexAsDepth)(slot) == 0
  {
  }

  lemma OneMoreRow(c: Cipher, g: Graph, rows: seq<Val>, i: nat, indexAsDepth: bool,
                   r: map<Slot, string>, s: map<Slot, string>, t: map<Slot, string>)
    requires i < |rows|
    requires AllRewritten(c, Encrypting, RowsCount(g, rows[..i], indexAsDepth), r, s)
    requires AllRewritten(c, Encrypting, VisitCount(g, Targets(rows[i]), Budget(if indexAsDepth then i else 0)), s, t)
    ensures AllRewritten(c, Encrypting, RowsCount(g, rows[..i + 1], indexAsDepth), r, t)
  {
    hide Rewritten, Graph.SumVisits, Budget;
    assert rows[..i + 1][..i] == rows[..i];
    AllCompose(c, Encrypting, RowsCount(g, rows[..i], indexAsDepth),
               VisitCount(g, Targets(rows[i]), Budget(if indexAsDepth then i else 0)),
               RowsCount(g, rows[..i + 1], indexAsDepth), r, s, t);
  }

  ghost function RowVisits(g: Graph, rows: seq<Val>, y: NodeId, indexAsDepth: bool): nat {
    if rows == [] then 0
    else
      var last := |rows| - 1;
      RowVisits(g, rows[..last], y, indexAsDepth)
      + g.SumVisits(Targets(rows[last]), y, Budget(if indexAsDepth then last else 0))
  }

  // ----- Main results over whole graphs ------------------------------------------------------

  /** What a walk from x that starts at a given depth does to a string, in terms of the walks alone: the four personal
      fields get one rewrite per walk of a length that keeps within depth 5, any other string gets none. */
  lemma LayersAreWalks(g: Graph, x: NodeId, depth: nat, y: NodeId, key: string) returns (walks: seq<seq<nat>>)
    ensures g.Distinct(walks) && forall p :: p in walks <==> depth + |p| <= 5 && g.IsWalk(x, p, y)
    ensures var personal := key == "nationalId" || key == "passportNo" || key == "phone" || key == "fullName";
      VisitCount(g, [x], Budget(depth))((y, key)) == if personal then |walks| else 0
  {
    hide Graph.SumVisits, Graph.Visits, Graph.WalkList, Graph.IsWalk, Graph.Distinct;
    walks := g.WalkList(x, y, Budget(depth));
    g.VisitsCountWalks(x, y, Budget(depth));
    SingleTarget(g, x, y, Budget(depth));
  }

  /** A personal string at the end of exactly one walk: one layer if its length is 0 to 5, none from 6 on. */
  lemma OneWalkOneLayer(g: Graph, x: NodeId, walk: seq<nat>, y: NodeId, key: string)
    requires key == "nationalId" || key == "passportNo" || key == "phone" || key == "fullName"
    requires g.IsWalk(x, walk, y) && forall p :: g.IsWalk(x, p, y) ==> p == walk
    ensures VisitCount(g, [x], Budget(0))((y, key)) == if |walk| <= 5 then 1 else 0
  {
    hide Graph.SumVisits, Graph.IsWalk, Budget, VisitCount;
    var walks := LayersAreWalks(g, x, 0, y, key);
    AtMostOne(g, walks, walk);
  }

  lemma AtMostOne(g: Graph, walks: seq<seq<nat>>, walk: seq<nat>)
    requires g.Distinct(walks) && forall p :: p in walks ==> p == walk
    ensures |walks| == if walk in walks then 1 else 0
  {
    if walks != [] {
      var n := |walks| - 1;
      assert walks[0] in walks && walks[n] in walks;
      assert walks[0] == walks[n] && n == 0;
    }
  }

  /** A record in an array, such as a passenger of a booking, is reached: its personal fields do get a layer. */
  lemma ArrayElementsAreReached(g: Graph, x: NodeId, i: nat, list: NodeId, j: nat, y: NodeId)
    requires g.Valid() && x < |g.entries| && i < |g.entries[x]| && g.entries[x][i].val == Child(list)
    requires g.kinds[list] == List && j < |g.entries[list]| && g.entries[list][j].val == Child(y)
    ensures VisitCount(g, [x], Budget(0))((y, "fullName")) > 0
  {
    hide Graph.SumVisits, Graph.Succ, Graph.ElementRefs, Budget, VisitCount;
    ElementReferred(g, x, i, list, j, y);
    g.SuccCountsReferences(x, y);
    assert y in multiset(g.Succ(x)) && y in g.Succ(x);
    var k: nat :| k < |g.Succ(x)| && g.Succ(x)[k] == y;
    var walks := LayersAreWalks(g, x, 0, y, "fullName");
    assert [k][1..] == [];
    assert g.IsWalk(x, [k], y);
    assert [k] in walks;
  }

  lemma ElementReferred(g: Graph, x: NodeId, i: nat, list: NodeId, j: nat, y: NodeId)
    requires g.Valid() && x < |g.entries| && i < |g.entries[x]| && g.entries[x][i].val == Child(list)
    requires g.kinds[list] == List && j < |g.entries[list]| && g.entries[list][j].val == Child(y)
    ensures y < |g.entries| && |g.ElementRefs(x, y)| > 0
  {
    assert g.entries[list][j].val.node < |g.entries|;
    assert (i, j) in g.ElementRefs(x, y);
  }

  /** Decryption from the same root undoes encryption: every layer is removed and the graph is as before. */
  lemma WalksInvert(c: Cipher, count: Slot -> nat, plain: map<Slot, string>, stored: map<Slot, string>,
                    read: map<Slot, string>)
    requires c.Lawful()
    requires AllRewritten(c, Encrypting, count, plain, stored) && AllRewritten(c, Decrypting, count, stored, read)
    ensures read == plain
  {
    hide Encrypt, Decrypt, Layered, Peel;
    forall slot | slot in plain ensures read[slot] == plain[slot] {
      assert Rewritten(c, Encrypting, count(slot), plain[slot], stored[slot]);
      assert Rewritten(c, Decrypting, count(slot), stored[slot], read[slot]);
      PeelRestores(c, count(slot), count(slot), plain[slot], stored[slot]);
    }
  }

  /** A read with at most as many visits restores the graph exactly if it misses no layer of a non-empty string. */
  lemma RestoredIffAllVisited(c: Cipher, wrote: Slot -> nat, seen: Slot -> nat,
                              plain: map<Slot, string>, stored: map<Slot, string>, read: map<Slot, string>)
    requires c.Lawful()
    requires AllRewritten(c, Encrypting, wrote, plain, stored) && AllRewritten(c, Decrypting, seen, stored, read)
    requires forall slot :: slot in plain ==> seen(slot) <= wrote(slot)
    ensures read == plain <==> forall slot :: slot in plain && plain[slot] != "" ==> seen(slot) == wrote(slot)
  {
    hide Encrypt, Decrypt, Layered, Peel;
    forall slot | slot in plain
      ensures read[slot] == plain[slot] <==> plain[slot] == "" || seen(slot) == wrote(slot)
    {
      assert Rewritten(c, Encrypting, wrote(slot), plain[slot], stored[slot]);
      assert Rewritten(c, Decrypting, seen(slot), stored[slot], read[slot]);
      PeelRestores(c, seen(slot), wrote(slot), plain[slot], stored[slot]);
    }
  }

  /** A record the engine builds itself, string by string out of what is stored: a copy on which the read makes at most
      as many visits as the write made on its origin is restored exactly if it makes as many, or if the text is empty;
      with more visits the surplus is decrypted off the plain text, which leaves clear text alone. */
  lemma CopiesRestoredIff(c: Cipher, wrote: Slot -> nat, seen: Slot -> nat, copy: map<Slot, Slot>, slot: Slot,
                          plain: map<Slot, string>, stored: map<Slot, string>, read: map<Slot, string>)
    requires c.Lawful() && AllRewritten(c, Encrypting, wrote, plain, stored)
    requires slot in copy && slot in stored && forall q :: q in copy ==> copy[q] in stored
    requires AllRewritten(c, Decrypting, seen, Loaded(stored, copy), read)
    ensures var origin := copy[slot];
      && (seen(slot) <= wrote(origin) ==>
            (read[slot] == plain[origin] <==> plain[origin] == "" || seen(slot) == wrote(origin)))
      && (seen(slot) >= wrote(origin) ==> read[slot] == Peel(c, seen(slot) - wrote(origin), plain[origin]))
      && (seen(slot) >= wrote(origin) && Untouchable(plain[origin]) ==> read[slot] == plain[origin])
  {
    hide Encrypt, Decrypt, Layered, Peel, Untouchable;
    var origin := copy[slot];
    assert Rewritten(c, Encrypting, wrote(origin), plain[origin], stored[origin]);
    assert Rewritten(c, Decrypting, seen(slot), stored[origin], read[slot]);
    if seen(slot) <= wrote(origin) {
      PeelRestores(c, seen(slot), wrote(origin), plain[origin], stored[origin]);
    }
    if seen(slot) >= wrote(origin) {
      PeelRestores(c, wrote(origin), wrote(origin), plain[origin], stored[origin]);
      PeelSplit(c, seen(slot) - wrote(origin), wrote(origin), stored[origin]);
      if Untouchable(plain[origin]) { UntouchableStays(c, seen(slot) - wrote(origin), plain[origin]); }
    }
  }

  lemma {:induction false} PeelSplit(c: Cipher, j: nat, k: nat, s: string)
    ensures Peel(c, j + k, s) == Peel(c, j, Peel(c, k, s))
  {
    hide Decrypt;
    if j > 0 { PeelSplit(c, j - 1, k, s); }
  }

  /** The record a findMany returns is an element of the array it decrypts from, one level down. */
  lemma ListVisits(g: Graph, list: NodeId, rows: seq<NodeId>, y: NodeId, n: nat)
    requires list < |g.entries| && g.Succ(list) == rows && n > 0 && y != list
    ensures g.SumVisits([list], y, n) == g.SumVisits(rows, y, n - 1)
  {
    assert g.SumVisits([list], y, n) == g.Visits(list, y, n) + g.SumVisits([], y, n);
  }

  /** Records written by create and read back by findMany through a result array are restored exactly when no
      walk of length five, the deepest that create still encrypts, ends at a non-empty personal string. */
  lemma FindManyRestoresIff(c: Cipher, g: Graph, list: NodeId, rows: seq<NodeId>,
                            plain: map<Slot, string>, stored: map<Slot, string>, read: map<Slot, string>)
    requires c.Lawful() && list < |g.entries| && g.Succ(list) == rows && forall slot :: slot in plain ==> slot.0 != list
    requires AllRewritten(c, Encrypting, VisitCount(g, rows, Budget(0)), plain, stored)
    requires AllRewritten(c, Decrypting, VisitCount(g, [list], Budget(0)), stored, read)
    ensures read == plain <==>
      forall slot, i: nat, walk :: slot in plain && slot.1 in PII_FIELDS && plain[slot] != "" && |walk| == 5 ==>
        !g.IsBranchWalk(rows, i, walk, slot.0)
  {
    hide Rewritten, Graph.IsBranchWalk;
    var wrote, seen := VisitCount(g, rows, Budget(0)), VisitCount(g, [list], Budget(0));
    forall slot | slot in plain
      ensures seen(slot) <= wrote(slot)
      ensures seen(slot) == wrote(slot) <==>
        slot.1 in PII_FIELDS ==> forall i: nat, walk :: |walk| == MAX_DEPTH ==> !g.IsBranchWalk(rows, i, walk, slot.0)
    {
      ListVisits(g, list, rows, slot.0, MAX_DEPTH + 1);
      g.SumVisitsMonotone(rows, slot.0, MAX_DEPTH, MAX_DEPTH + 1);
      g.SameSumIff(rows, slot.0, MAX_DEPTH, MAX_DEPTH + 1);
    }
    RestoredIffAllVisited(c, wrote, seen, plain, stored, read);
  }

  /** In createMany by map(encryptPii), element i reaches personal data at depth at most 5 - i:
      the two forms agree on a record exactly when no row i has a longer walk to it within depth five. */
  lemma {:induction false} MappedRowsAgreeIff(g: Graph, rows: seq<Val>, y: NodeId)
    ensures RowVisits(g, rows, y, true) <= RowVisits(g, rows, y, false)
    ensures RowVisits(g, rows, y, true) == RowVisits(g, rows, y, false) <==>
      forall i, walk :: 0 <= i < |rows| && rows[i].Child? && 5 - i < |walk| <= 5 ==>
        !g.IsWalk(rows[i].node, walk, y)
  {
    hide Graph.SumVisits, Graph.IsWalk;
    if rows != [] {
      var last := |rows| - 1;
      MappedRowsAgreeIff(g, rows[..last], y);
      LastRow(g, rows[last], last, y);
      assert forall i :: 0 <= i < last ==> rows[..last][i] == rows[i];
    }
  }

  /** Starting one row at depth `depth` instead of 0 loses exactly the walks longer than 5 - depth. */
  lemma LastRow(g: Graph, row: Val, depth: nat, y: NodeId)
    ensures g.SumVisits(Targets(row), y, Budget(depth)) <= g.SumVisits(Targets(row), y, Budget(0))
    ensures g.SumVisits(Targets(row), y, Budget(depth)) == g.SumVisits(Targets(row), y, Budget(0)) <==>
      row.Child? ==> forall walk :: MAX_DEPTH - depth < |walk| <= MAX_DEPTH ==> !g.IsWalk(row.node, walk, y)
  {
    hide Graph.IsWalk;
    assert Budget(0) == MAX_DEPTH + 1;
    if row.Child? {
      g.VisitsMonotone(row.node, y, Budget(depth), Budget(0));
      g.SameVisitsIff(row.node, y, Budget(depth), Budget(0));
      SingleTarget(g, row.node, y, Budget(depth));
      SingleTarget(g, row.node, y, Budget(0));
    }
  }

  lemma SingleTarget(g: Graph, x: NodeId, y: NodeId, n: nat)
    ensures g.SumVisits([x], y, n) == g.Visits(x, y, n)
  {
    assert g.SumVisits([x], y, n) == g.Visits(x, y, n) + g.SumVisits([], y, n);
  }

  /** Flat rows, all different objects: the first six get one layer each, every later row is stored in the clear. */
  lemma {:induction false} FlatRowsBeyondDepth(g: Graph, rows: seq<Val>, k: nat)
    requires k < |rows| && forall i :: 0 <= i < |rows| ==> rows[i].Child? && g.Succ(rows[i].node) == []
    requires forall i, j :: 0 <= i < j < |rows| ==> rows[i].node != rows[j].node
    ensures RowVisits(g, rows, rows[k].node, true) == if k <= 5 then 1 else 0
    ensures RowVisits(g, rows, rows[k].node, false) == 1
  {
    hide Graph.SumVisits, Graph.Visits, Graph.Succ;
    var last, y := |rows| - 1, rows[k].node;
    FlatVisits(g, rows[last].node, y, Budget(last));
    FlatVisits(g, rows[last].node, y, Budget(0));
    assert forall i :: 0 <= i < last ==> rows[..last][i] == rows[i];
    if k < last {
      FlatRowsBeyondDepth(g, rows[..last], k);
    } else {
      UnvisitedRows(g, rows[..last], y);
    }
  }

  lemma FlatVisits(g: Graph, x: NodeId, y: NodeId, n: nat)
    requires g.Succ(x) == []
    ensures g.SumVisits([x], y, n) == if x == y && n > 0 then 1 else 0
  {
    SingleTarget(g, x, y, n);
    assert n > 0 ==> g.Visits(x, y, n) == (if x == y then 1 else 0) + g.SumVisits([], y, n - 1);
  }

  lemma {:induction false} UnvisitedRows(g: Graph, rows: seq<Val>, y: NodeId)
    requires forall i :: 0 <= i < |rows| ==> rows[i].Child? && g.Succ(rows[i].node) == [] && rows[i].node != y
    ensures RowVisits(g, rows, y, true) == 0 == RowVisits(g, rows, y, false)
  {
    if rows != [] {
      var last := |rows| - 1;
      UnvisitedRows(g, rows[..last], y);
      FlatVisits(g, rows[last].node, y, Budget(last));
      FlatVisits(g, rows[last].node, y, Budget(0));
    }
  }
}
