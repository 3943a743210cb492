/** The versioned memory of projects: founders add items that may replace earlier ones, the detector adds
    contradictions (`projects/owner_service.py`, `project_memory/repository.py`,
    `project_memory/contradictions.py`). An item is named by its rank of creation. */
module ProjectMemory {
  import opened Options
  import opened Findings
  import opened Joins

  datatype Item = Item(
    project: nat,
    dimension: int,
    statement: string,
    key: Option<string>,
    supersedes: Option<nat>,
    active: bool)

  type Items = seq<Item>

  datatype Outcome =
    | Added(id: nat)
    | Existing(id: nat)
    | InvalidDimension
    | NotFound
    | AlreadyReplaced
    | OtherDimension

  /** The new item, and its predecessor no longer active. */
  function Inserted(items: Items, item: Item): Items {
    (if item.supersedes.Some? && item.supersedes.value < |items| then
       items[item.supersedes.value := items[item.supersedes.value].(active := false)]
     else items) + [item]
  }

  /** One item more, at the end; only the one it replaces changes, and only by not being active any more. */
  lemma InsertedIs(items: Items, item: Item)
    ensures var after := Inserted(items, item);
            && |after| == |items| + 1 && after[|items|] == item
            && forall i | 0 <= i < |items| ::
                 after[i] == if item.supersedes == Some(i) then items[i].(active := false) else items[i]
  {
  }

  predicate HasKey(items: Items, project: nat, key: string, i: nat) {
    i < |items| && items[i].project == project && items[i].key == Some(key)
  }

  // ---- The shape of the memory ----------------------------------------------------------------------

  /** A link goes back to an item of the same project and dimension. */
  ghost predicate LinkSound(items: Items, i: nat)
    requires i < |items|
  {
    items[i].supersedes.Some? ==>
      var j := items[i].supersedes.value;
      j < i && items[j].project == items[i].project && items[j].dimension == items[i].dimension
  }

  ghost predicate Replaces(items: Items, k: nat, i: nat) {
    k < |items| && items[k].supersedes == Some(i)
  }

  ghost predicate Shape(items: Items) {
    && (forall i | 0 <= i < |items| :: LinkSound(items, i))
    && (forall i | 0 <= i < |items| :: !items[i].active <==> exists k: nat :: Replaces(items, k, i))
    && (forall i, k: nat, l: nat | Replaces(items, k, i) && Replaces(items, l, i) :: k == l)
    && (forall p, x, i: nat, j: nat | HasKey(items, p, x, i) && HasKey(items, p, x, j) :: i == j)
  }

  /** The invariant of the memory; the count follows from the links one insertion at a time. */
  ghost predicate Sound(items: Items) {
    Shape(items) && ActiveCount(items) + Links(items) == |items|
  }

  /** Inserting a replacement of `j`, checked at whatever earlier time, keeps the shape exactly when `j` is
      still active at the insertion. */
  lemma ReplacementIsSafeIff(items: Items, item: Item, j: nat)
    requires Shape(items) && j < |items| && item.supersedes == Some(j) && item.active
    requires items[j].project == item.project && items[j].dimension == item.dimension
    requires item.key.Some? ==> forall i :: !HasKey(items, item.project, item.key.value, i)
    ensures Shape(Inserted(items, item)) <==> items[j].active
  {
    var after := Inserted(items, item);
    LinksAfter(items, item);
    KeysAfter(items, item);
    assert Replaces(after, |items|, j);
    if items[j].active {
      forall i | 0 <= i < |after|
        ensures !after[i].active <==> exists k: nat :: Replaces(after, k, i)
      {
        if k: nat :| Replaces(after, k, i) {
          assert k < |items| ==> Replaces(items, k, i) && LinkSound(items, k);
        }
        if i < |items| && !items[i].active {
          var k: nat :| Replaces(items, k, i);
          assert Replaces(after, k, i);
        }
      }
      assert forall k: nat :: !Replaces(items, k, j);
      assert Shape(after);
    } else {
      var k: nat :| Replaces(items, k, j);
      assert Replaces(after, k, j);
    }
  }

  /** What insertion does to the links. */
  lemma LinksAfter(items: Items, item: Item)
    requires Shape(items)
    requires item.supersedes.Some? ==>
               var j := item.supersedes.value;
               j < |items| && items[j].project == item.project && items[j].dimension == item.dimension
    ensures var after := Inserted(items, item);
            && (forall i | 0 <= i < |after| :: LinkSound(after, i))
            && (forall k: nat, i: nat :: Replaces(after, k, i) <==>
                  Replaces(items, k, i) || (k == |items| && item.supersedes == Some(i)))
  {
    var after := Inserted(items, item);
    forall i | 0 <= i < |after|
      ensures LinkSound(after, i)
    {
      assert i < |items| ==> LinkSound(items, i);
    }
  }

  lemma KeysAfter(items: Items, item: Item)
    requires Shape(items)
    requires item.key.Some? ==> forall i :: !HasKey(items, item.project, item.key.value, i)
    ensures var after := Inserted(items, item);
            && (forall p, x, i: nat, j: nat | HasKey(after, p, x, i) && HasKey(after, p, x, j) :: i == j)
            && (forall p, x, i: nat :: HasKey(after, p, x, i) <==>
                  HasKey(items, p, x, i) || (i == |items| && item.project == p && item.key == Some(x)))
  {
    var after := Inserted(items, item);
    forall p, x, i: nat
      ensures HasKey(after, p, x, i) <==>
              HasKey(items, p, x, i) || (i == |items| && item.project == p && item.key == Some(x))
    {
    }
  }

  /** Inserting an item that replaces nothing. */
  lemma FreshItemIsSafe(items: Items, item: Item)
    requires Shape(items) && item.supersedes == None && item.active
    requires item.key.Some? ==> forall i :: !HasKey(items, item.project, item.key.value, i)
    ensures Shape(Inserted(items, item))
  {
    LinksAfter(items, item);
    KeysAfter(items, item);
    var after := Inserted(items, item);
    forall i | 0 <= i < |after|
      ensures !after[i].active <==> exists k: nat :: Replaces(after, k, i)
    {
      if k: nat :| Replaces(after, k, i) {
        assert Replaces(items, k, i) && LinkSound(items, k);
      }
    }
  }

  // ---- The operations ---------------------------------------------------------------------------------

  class Memory {
    var items: Items

    constructor ()
      ensures items == [] && Sound(items)
    {
      items := [];
    }

    method FindByKey(project: nat, key: string) returns (r: Option<nat>)
      ensures r.Some? ==> HasKey(items, project, key, r.value)
      ensures r.None? ==> forall i :: !HasKey(items, project, key, i)
    {
      if i :| 0 <= i < |items| && HasKey(items, project, key, i) {
        return Some(i);
      }
      return None;
    }

    /** `add_memory`: an item already known under its key is returned as it is; otherwise the checks, the
        insertion and the deactivation of the replaced item. Only an insertion changes anything. */
    method AddMemory(project: nat, dimension: int, statement: string, founderKey: string, supersedes: Option<nat>)
      returns (o: Outcome)
      requires Sound(items)
      modifies this
      ensures Sound(items)
      ensures o.Added? ==> items == Inserted(old(items), Item(project, dimension, statement,
                                     if founderKey == "" then None else Some("founder:" + founderKey),
                                     supersedes, true))
                           && o.id == |old(items)|
      ensures !o.Added? ==> items == old(items)
      ensures o == InvalidDimension <==> !(1 <= dimension <= 12)
      ensures 1 <= dimension <= 12 && founderKey != "" ==>
                (o.Existing? <==> exists i :: HasKey(old(items), project, "founder:" + founderKey, i))
      ensures o.Existing? ==> founderKey != "" && HasKey(items, project, "founder:" + founderKey, o.id)
      ensures o.Added? && supersedes.Some? ==>
                var j := supersedes.value;
                && j < |old(items)| && old(items)[j].project == project && old(items)[j].dimension == dimension
                && old(items)[j].active && !items[j].active
      ensures o == AlreadyReplaced ==> supersedes.Some? && supersedes.value < |items| && !items[supersedes.value].active
      ensures o == OtherDimension ==> supersedes.Some? && supersedes.value < |items|
                                      && items[supersedes.value].active
                                      && items[supersedes.value].dimension != dimension
      ensures o == NotFound ==> supersedes.Some?
                                && (supersedes.value < |items| ==> items[supersedes.value].project != project)
    {
      if !(1 <= dimension <= 12) {
        return InvalidDimension;
      }
      var key := if founderKey == "" then None else Some("founder:" + founderKey);
      if key.Some? {
        var existing := FindByKey(project, key.value);
        if existing.Some? {
          return Existing(existing.value);
        }
      }
      var item := Item(project, dimension, statement, key, supersedes, true);
      if supersedes.Some? {
        var j := supersedes.value;
        if j >= |items| || items[j].project != project {
          return NotFound;
        }
        if !items[j].active {
          return AlreadyReplaced;
        }
        if items[j].dimension != dimension {
          return OtherDimension;
        }
        ReplacementIsSafeIff(items, item, j);
      } else {
        FreshItemIsSafe(items, item);
      }
      InsertionCounts(items, item);
      items := Inserted(items, item);
      return Added(|items| - 1);
    }

    /** One finding: written unless the project knows its key. */
    method PersistOne(digest: string -> string, project: nat, f: Finding) returns (created: bool)
      requires Sound(items)
      modifies this
      ensures Sound(items) && created == !KeyKnown(old(items), project, ContradictionKey(digest, f))
      ensures items == PersistedOne(digest, project, old(items), f)
      ensures !created ==> items == old(items)
      ensures created ==> |items| == |old(items)| + 1 && items[..|old(items)|] == old(items)
                          && var i := items[|old(items)|];
                             && i.project == project && i.statement == f.explanation && i.active
                             && i.supersedes == None && i.key == Some("contradiction:" + digest(Material(f)))
                             && DimensionIs(f.kind, i.dimension)
    {
      var known := FindByKey(project, ContradictionKey(digest, f));
      if known.Some? {
        return false;
      }
      NewContradiction(digest, project, items, f);
      items := items + [Contradiction(digest, project, f)];
      return true;
    }

    /** `persist_findings`: one item for each finding whose key the project does not know yet. */
    method PersistFindings(digest: string -> string, project: nat, findings: seq<Finding>) returns (created: nat)
      requires Sound(items)
      modifies this
      ensures Sound(items)
      ensures items == Persisted(digest, project, old(items), findings)
      ensures created == |items| - |old(items)|
    {
      created := 0;
      ghost var was := items;
      for n := 0 to |findings|
        invariant Sound(items)
        invariant items == Persisted(digest, project, was, findings[..n])
        invariant |items| == |was| + created
      {
        assert findings[..n + 1][..n] == findings[..n];
        var one := PersistOne(digest, project, findings[n]);
        if one {
          created := created + 1;
        }
      }
      assert findings[..|findings|] == findings;
    }
  }

  /** The Radar dimension a contradiction is attached to. */
  function DimensionOf(k: InconsistencyType): int {
    match k
    case Arithmetic => 6
    case Market => 4
    case Capacity => 10
    case Temporal => 11
    case Regulatory => 12
    case Internal => 7
  }

  /** The dimension each kind of contradiction weakens. */
  ghost predicate DimensionIs(k: InconsistencyType, d: int) {
    && (d == 6 <==> k == Arithmetic) && (d == 4 <==> k == Market) && (d == 10 <==> k == Capacity)
    && (d == 11 <==> k == Temporal) && (d == 12 <==> k == Regulatory) && (d == 7 <==> k == Internal)
  }

  function KindName(k: InconsistencyType): string {
    match k
    case Arithmetic => "arithmetic"
    case Temporal => "temporal"
    case Regulatory => "regulatory"
    case Market => "market"
    case Capacity => "capacity"
    case Internal => "internal"
  }

  /** What is digested for a finding. */
  function Material(f: Finding): string {
    KindName(f.kind) + "|" + (f.quoteA + "|" + f.quoteB)
  }

  lemma MaterialIs(f: Finding)
    ensures f.kind == Arithmetic ==> Material(f) == "arithmetic|" + f.quoteA + "|" + f.quoteB
    ensures f.kind == Temporal ==> Material(f) == "temporal|" + f.quoteA + "|" + f.quoteB
    ensures f.kind == Regulatory ==> Material(f) == "regulatory|" + f.quoteA + "|" + f.quoteB
    ensures f.kind == Market ==> Material(f) == "market|" + f.quoteA + "|" + f.quoteB
    ensures f.kind == Capacity ==> Material(f) == "capacity|" + f.quoteA + "|" + f.quoteB
    ensures f.kind == Internal ==> Material(f) == "internal|" + f.quoteA + "|" + f.quoteB
  {
    assert KindName(f.kind) + "|" + (f.quoteA + "|" + f.quoteB) == KindName(f.kind) + "|" + f.quoteA + "|" + f.quoteB;
  }

  /** `digest` is the truncated hash of a text. */
  function ContradictionKey(digest: string -> string, f: Finding): string {
    "contradiction:" + digest(Material(f))
  }

  function Contradiction(digest: string -> string, project: nat, f: Finding): Item {
    Item(project, DimensionOf(f.kind), f.explanation, Some(ContradictionKey(digest, f)), None, true)
  }

  lemma NewContradiction(digest: string -> string, project: nat, items: Items, f: Finding)
    requires Sound(items) && forall i :: !HasKey(items, project, ContradictionKey(digest, f), i)
    ensures Sound(items + [Contradiction(digest, project, f)])
  {
    FreshItemIsSafe(items, Contradiction(digest, project, f));
    InsertionCounts(items, Contradiction(digest, project, f));
  }

  ghost function Persisted(digest: string -> string, project: nat, items: Items, findings: seq<Finding>): Items {
    if findings == [] then items
    else
      var n := |findings| - 1;
      PersistedOne(digest, project, Persisted(digest, project, items, findings[..n]), findings[n])
  }

  ghost predicate KeyKnown(items: Items, project: nat, key: string) {
    exists i :: HasKey(items, project, key, i)
  }

  ghost function PersistedOne(digest: string -> string, project: nat, items: Items, f: Finding): Items {
    if KeyKnown(items, project, ContradictionKey(digest, f)) then items else items + [Contradiction(digest, project, f)]
  }

  lemma {:induction false} PersistedKnows(digest: string -> string, project: nat, items: Items, findings: seq<Finding>)
    ensures |items| <= |Persisted(digest, project, items, findings)|
    ensures forall f | f in findings ::
              exists i :: HasKey(Persisted(digest, project, items, findings), project, ContradictionKey(digest, f), i)
    ensures forall p, x, i: nat | HasKey(items, p, x, i) :: HasKey(Persisted(digest, project, items, findings), p, x, i)
    ensures items <= Persisted(digest, project, items, findings)
  {
    if findings != [] {
      var n := |findings| - 1;
      PersistedKnows(digest, project, items, findings[..n]);
      var before := Persisted(digest, project, items, findings[..n]);
      var after := Persisted(digest, project, items, findings);
      assert forall p, x, i: nat | HasKey(before, p, x, i) :: HasKey(after, p, x, i);
      forall f | f in findings
        ensures exists i :: HasKey(after, project, ContradictionKey(digest, f), i)
      {
        if f in findings[..n] {
          var i :| HasKey(before, project, ContradictionKey(digest, f), i);
          assert HasKey(after, project, ContradictionKey(digest, f), i);
        } else {
          assert f == findings[n];
          if !exists i :: HasKey(before, project, ContradictionKey(digest, f), i) {
            assert HasKey(after, project, ContradictionKey(digest, f), |before|);
          }
        }
      }
    }
  }

  /** Scoring again does not pile up the same contradictions, in whatever order they come back. */
  lemma PersistingAgainAddsNothing(digest: string -> string, project: nat, items: Items,
                                   findings: seq<Finding>, again: seq<Finding>)
    requires forall f | f in again :: f in findings
    ensures var once := Persisted(digest, project, items, findings);
            Persisted(digest, project, once, again) == once
  {
    PersistedKnows(digest, project, items, findings);
  }

  // ---- Keys that collide ----------------------------------------------------------------------------------

  /** The claims two findings make, whatever they explain. */
  predicate SameClaim(f: Finding, g: Finding) {
    f.kind == g.kind && f.quoteA == g.quoteA && f.quoteB == g.quoteB
  }

  lemma KindNamesDiffer(j: InconsistencyType, k: InconsistencyType)
    ensures '|' !in KindName(k) && (KindName(j) == KindName(k) ==> j == k)
  {
    assert KindName(j)[0] == KindName(k)[0] ==> KindName(j)[..2] == KindName(k)[..2];
  }

  lemma MaterialIsFaithful(f: Finding, g: Finding)
    requires Material(f) == Material(g) && '|' !in f.quoteA && '|' !in g.quoteA
    ensures SameClaim(f, g)
  {
    KindNamesDiffer(f.kind, g.kind);
    KindNamesDiffer(g.kind, f.kind);
    SplitOnce(KindName(f.kind), f.quoteA + "|" + f.quoteB, KindName(g.kind), g.quoteA + "|" + g.quoteB);
    SplitOnce(f.quoteA, f.quoteB, g.quoteA, g.quoteB);
  }

  lemma QuotesOfMaterial(f: Finding, g: Finding)
    requires Material(f) == Material(g) && '|' !in f.quoteA && '|' !in f.quoteB
    ensures '|' !in g.quoteA
  {
    KindNamesDiffer(f.kind, g.kind);
    KindNamesDiffer(g.kind, f.kind);
    BarsOfJoin(f.quoteA, f.quoteB);
    BarsOfJoin(g.quoteA, g.quoteB);
    SplitOnce(KindName(f.kind), f.quoteA + "|" + f.quoteB, KindName(g.kind), g.quoteA + "|" + g.quoteB);
  }

  lemma Confused(f: Finding) returns (g: Finding)
    requires '|' in f.quoteA || '|' in f.quoteB
    ensures Material(g) == Material(f) && !SameClaim(f, g)
  {
    if '|' in f.quoteA {
      var x, y := SplitAtBar(f.quoteA);
      g := f.(quoteA := x, quoteB := y + "|" + f.quoteB);
      assert f.quoteA + "|" + f.quoteB == g.quoteA + "|" + g.quoteB;
    } else {
      var x, y := SplitAtBar(f.quoteB);
      g := f.(quoteA := f.quoteA + "|" + x, quoteB := y);
      assert f.quoteA + "|" + f.quoteB == g.quoteA + "|" + g.quoteB;
    }
  }

  /** What is digested for a finding can be that of no other claim, if and only if neither of its quotes holds the
      separator: its type never does. */
  lemma MaterialNamesOneIff(f: Finding)
    ensures (forall g | Material(g) == Material(f) :: SameClaim(f, g)) <==> '|' !in f.quoteA && '|' !in f.quoteB
  {
    if '|' in f.quoteA || '|' in f.quoteB {
      var g := Confused(f);
    } else {
      forall g | Material(g) == Material(f)
        ensures SameClaim(f, g)
      {
        QuotesOfMaterial(f, g);
        MaterialIsFaithful(f, g);
      }
    }
  }

  /** Of two findings new to the project, the second one is dropped exactly when the digest confuses them. */
  lemma DroppedIff(digest: string -> string, project: nat, items: Items, f: Finding, g: Finding)
    requires !KeyKnown(items, project, ContradictionKey(digest, f))
    requires !KeyKnown(items, project, ContradictionKey(digest, g))
    ensures Persisted(digest, project, items, [f, g]) == Persisted(digest, project, items, [f])
            <==> digest(Material(f)) == digest(Material(g))
  {
    var one := items + [Contradiction(digest, project, f)];
    assert [f, g][..1] == [f] && [f][..0] == [];
    assert Persisted(digest, project, items, [f]) == one;
    assert HasKey(one, project, ContradictionKey(digest, f), |items|);
    if digest(Material(f)) != digest(Material(g)) {
      assert ContradictionKey(digest, f)[|"contradiction:"|..] == digest(Material(f));
      assert ContradictionKey(digest, g)[|"contradiction:"|..] == digest(Material(g));
      forall i: nat
        ensures !HasKey(one, project, ContradictionKey(digest, g), i)
      {
        assert !HasKey(items, project, ContradictionKey(digest, g), i);
        assert i == |items| ==> one[i].key == Some(ContradictionKey(digest, f));
      }
    }
  }

  /** So a contradiction with a separator in a quote makes another one, on other quotes, disappear under any digest. */
  lemma SeparatorDrops(digest: string -> string, project: nat, items: Items, f: Finding) returns (g: Finding)
    requires '|' in f.quoteA || '|' in f.quoteB
    ensures !SameClaim(f, g)
    ensures Persisted(digest, project, items, [f, g]) == Persisted(digest, project, items, [f])
  {
    g := Confused(f);
    PersistedKnows(digest, project, items, [f]);
    assert f in [f] && [f, g][..1] == [f];
  }

  // ---- Chains of versions -------------------------------------------------------------------------------

  /** The first version of an item. */
  ghost function Root(items: Items, i: nat): nat
    requires Shape(items) && i < |items|
    ensures Root(items, i) <= i
    decreases i
  {
    assert LinkSound(items, i);
    if items[i].supersedes.None? then i else Root(items, items[i].supersedes.value)
  }

  /** The current version of an item. */
  ghost function Latest(items: Items, i: nat): (l: nat)
    requires Shape(items) && i < |items|
    ensures l < |items| && items[l].active
    decreases |items| - i
  {
    if items[i].active then i
    else
      var k: nat :| Replaces(items, k, i);
      assert LinkSound(items, k);
      Latest(items, k)
  }

  lemma LatestOfPrevious(items: Items, k: nat, i: nat)
    requires Shape(items) && k < |items| && Replaces(items, k, i)
    ensures i < k && Latest(items, i) == Latest(items, k)
  {
    assert LinkSound(items, k);
  }

  lemma {:induction false} LatestOfRoot(items: Items, i: nat)
    requires Shape(items) && i < |items|
    ensures items[Root(items, i)].supersedes == None
    ensures Latest(items, Root(items, i)) == Latest(items, i)
    decreases i
  {
    assert LinkSound(items, i);
    if items[i].supersedes.Some? {
      var j := items[i].supersedes.value;
      assert Replaces(items, i, j);
      LatestOfPrevious(items, i, j);
      LatestOfRoot(items, j);
    }
  }

  lemma {:induction false} RootOfLatest(items: Items, i: nat)
    requires Shape(items) && i < |items|
    ensures Root(items, Latest(items, i)) == Root(items, i)
    ensures items[Latest(items, i)].project == items[i].project
            && items[Latest(items, i)].dimension == items[i].dimension
    decreases |items| - i
  {
    if !items[i].active {
      var k: nat :| Replaces(items, k, i);
      LatestOfPrevious(items, k, i);
      RootOfLatest(items, k);
      assert LinkSound(items, k);
    }
  }

  /** Versions form disjoint chains: two items are versions of one another if and only if they have the same
      first version, if and only if they have the same current one; and each chain has one active item. */
  lemma ChainsAreDisjoint(items: Items, i: nat, j: nat)
    requires Shape(items) && i < |items| && j < |items|
    ensures Root(items, i) == Root(items, j) <==> Latest(items, i) == Latest(items, j)
    ensures items[i].active && items[j].active && Root(items, i) == Root(items, j) ==> i == j
    ensures Root(items, i) == Root(items, j) ==>
              items[i].project == items[j].project && items[i].dimension == items[j].dimension
  {
    LatestOfRoot(items, i);
    LatestOfRoot(items, j);
    RootOfLatest(items, i);
    RootOfLatest(items, j);
  }

  function Links(items: Items): nat {
    if items == [] then 0
    else Links(items[..|items| - 1]) + if items[|items| - 1].supersedes.Some? then 1 else 0
  }

  function ActiveCount(items: Items): nat {
    if items == [] then 0
    else ActiveCount(items[..|items| - 1]) + if items[|items| - 1].active then 1 else 0
  }

  lemma {:induction false} DeactivateCounts(items: Items, j: nat)
    requires j < |items| && items[j].active
    ensures ActiveCount(items[j := items[j].(active := false)]) == ActiveCount(items) - 1
    ensures Links(items[j := items[j].(active := false)]) == Links(items)
  {
    var last := |items| - 1;
    var after := items[j := items[j].(active := false)];
    if j == last {
      assert after[..last] == items[..last];
    } else {
      assert after[..last] == items[..last][j := items[j].(active := false)];
      DeactivateCounts(items[..last], j);
    }
  }

  /** Each insertion keeps the count: the active items are all the items but one for each link. */
  lemma InsertionCounts(items: Items, item: Item)
    requires ActiveCount(items) + Links(items) == |items| && item.active
    requires item.supersedes.Some? ==> item.supersedes.value < |items| && items[item.supersedes.value].active
    ensures var after := Inserted(items, item); ActiveCount(after) + Links(after) == |after|
  {
    var after := Inserted(items, item);
    if item.supersedes.Some? {
      DeactivateCounts(items, item.supersedes.value);
    }
    assert after[..|after| - 1] == if item.supersedes.Some? then
        items[item.supersedes.value := items[item.supersedes.value].(active := false)] else items;
  }
}
