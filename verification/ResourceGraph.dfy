/** The entries of a resource cache as a graph: who depends on whom, who holds what, and what
    follows for the counts. */
module ResourceGraphs {
  import opened Entities

  type ResourceId = nat

  const NULL_ID: ResourceId := 0

  datatype ResourceState = Pending | Ready | Failed | AbsentForRole

  datatype ResourceEntry = ResourceEntry(
    id: ResourceId,
    acquires: nat,
    dependencies: seq<Entity>,
    state: ResourceState,
    loading: bool)

  type Entries = map<Entity, ResourceEntry>

  /** The counts and the edges of a cache. `holds` are the acquisitions of callers, `holders` the entries
      that depend on each entry, `rank` a witness that dependencies form no cycle. */
  datatype Graph = Graph(
    entries: Entries,
    byId: map<ResourceId, Entity>,
    holds: multiset<Entity>,
    holders: map<Entity, multiset<Entity>>,
    rank: map<Entity, nat>)

  ghost function FailedIn(entries: Entries): set<Entity> {
    set s | s in entries && entries[s].state.Failed?
  }

  lemma FailedUpdate(entries: Entries, s: Entity, entry: ResourceEntry)
    ensures FailedIn(entries[s := entry]) == if entry.state.Failed? then FailedIn(entries) + {s} else FailedIn(entries) - {s}
  {
  }

  const NOTHING := Graph(map[], map[], multiset{}, map[], map[])

  ghost predicate EdgesDown(entries: Entries, rank: map<Entity, nat>, h: Entity)
    requires h in entries && h in rank
  {
    forall d :: d in entries[h].dependencies ==> d in entries && d in rank && rank[d] < rank[h]
  }

  /** Every dependency of a live entry is live, and every edge leads down in rank. */
  ghost predicate Ranked(entries: Entries, rank: map<Entity, nat>) {
    forall h :: h in entries ==> h in rank && EdgesDown(entries, rank, h)
  }

  ghost predicate IdsOk(entries: Entries, byId: map<ResourceId, Entity>) {
    && (forall id :: id in byId ==> byId[id] in entries && entries[byId[id]].id == id)
    && (forall s :: s in entries ==> entries[s].id in byId && byId[entries[s].id] == s)
  }

  ghost function EdgeCount(entries: Entries, h: Entity, d: Entity): nat {
    if h in entries then multiset(entries[h].dependencies)[d] else 0
  }

  ghost predicate HoldersOf(entries: Entries, m: multiset<Entity>, d: Entity) {
    forall h {:trigger m[h]} :: m[h] == EdgeCount(entries, h, d)
  }

  ghost predicate HoldersOk(entries: Entries, holders: map<Entity, multiset<Entity>>) {
    holders.Keys == entries.Keys && forall d :: d in entries ==> HoldersOf(entries, holders[d], d)
  }

  /** Every count is the number of outside holds and of edges into the entry. */
  ghost predicate CountsOk(entries: Entries, holds: multiset<Entity>, holders: map<Entity, multiset<Entity>>) {
    && (forall s :: s in entries ==> CountOk(entries, holds, holders, s))
    && (forall s :: s in holds ==> s in entries)
  }

  ghost predicate CountOk(entries: Entries, holds: multiset<Entity>, holders: map<Entity, multiset<Entity>>, s: Entity)
    requires s in entries
  {
    s in holders && entries[s].acquires == holds[s] + |holders[s]|
  }

  ghost predicate GraphOk(g: Graph) {
    && IdsOk(g.entries, g.byId)
    && Ranked(g.entries, g.rank)
    && HoldersOk(g.entries, g.holders)
    && CountsOk(g.entries, g.holds, g.holders)
  }

  // ----- Paths -----

  /** A walk along dependencies, each one a dependency of the one before. */
  ghost predicate Path(entries: Entries, p: seq<Entity>) {
    && p != []
    && (forall i :: 0 <= i < |p| ==> p[i] in entries)
    && (forall i :: 0 <= i < |p| - 1 ==> p[i + 1] in entries[p[i]].dependencies)
  }

  ghost predicate Reaches(entries: Entries, rank: map<Entity, nat>, x: Entity, target: Entity)
    requires Ranked(entries, rank) && x in entries
    decreases rank[x]
  {
    x == target || exists d :: d in entries[x].dependencies && EdgesDown(entries, rank, x) && Reaches(entries, rank, d, target)
  }

  lemma {:induction false} PathReaches(entries: Entries, rank: map<Entity, nat>, p: seq<Entity>)
    requires Ranked(entries, rank) && Path(entries, p)
    ensures Reaches(entries, rank, p[0], p[|p| - 1])
  {
    if |p| > 1 {
      assert p[0 + 1] in entries[p[0]].dependencies;
      forall i | 0 <= i < |p[1..]| - 1 ensures p[1..][i + 1] in entries[p[1..][i]].dependencies {
        assert p[i + 1 + 1] in entries[p[i + 1]].dependencies;
      }
      PathReaches(entries, rank, p[1..]);
    }
  }

  lemma {:induction false} ReachesPath(entries: Entries, rank: map<Entity, nat>, x: Entity, target: Entity) returns (p: seq<Entity>)
    requires Ranked(entries, rank) && x in entries && Reaches(entries, rank, x, target)
    ensures Path(entries, p) && p[0] == x && p[|p| - 1] == target
    decreases rank[x]
  {
    if x == target {
      p := [x];
    } else {
      var d :| d in entries[x].dependencies && EdgesDown(entries, rank, x) && Reaches(entries, rank, d, target);
      var q := ReachesPath(entries, rank, d, target);
      p := [x] + q;
    }
  }

  /** Reaching is having a path, whatever the ranks. */
  lemma ReachesIsPath(entries: Entries, rank: map<Entity, nat>, x: Entity, target: Entity)
    requires Ranked(entries, rank) && x in entries
    ensures Reaches(entries, rank, x, target) <==> exists p :: Path(entries, p) && p[0] == x && p[|p| - 1] == target
  {
    if Reaches(entries, rank, x, target) {
      var p := ReachesPath(entries, rank, x, target);
    }
    forall p | Path(entries, p) && p[0] == x && p[|p| - 1] == target ensures Reaches(entries, rank, x, target) {
      PathReaches(entries, rank, p);
    }
  }

  /** No walk along dependencies comes back to where it started. */
  lemma NoCycle(entries: Entries, rank: map<Entity, nat>, p: seq<Entity>)
    requires Ranked(entries, rank) && Path(entries, p) && |p| > 1
    ensures p[0] != p[|p| - 1]
  {
    RankFalls(entries, rank, p);
  }

  lemma {:induction false} RankFalls(entries: Entries, rank: map<Entity, nat>, p: seq<Entity>)
    requires Ranked(entries, rank) && Path(entries, p) && |p| > 1
    ensures p[0] in rank && p[|p| - 1] in rank && rank[p[|p| - 1]] < rank[p[0]]
  {
    assert p[|p| - 2 + 1] in entries[p[|p| - 2]].dependencies;
    assert EdgesDown(entries, rank, p[|p| - 2]);
    if |p| > 2 {
      var q := p[..|p| - 1];
      forall i | 0 <= i < |q| - 1 ensures q[i + 1] in entries[q[i]].dependencies {
        assert p[i + 1] in entries[p[i]].dependencies;
      }
      RankFalls(entries, rank, q);
    }
  }

  /** A set closed under dependencies holds everything its members reach. */
  lemma {:induction false} ClosedReaches(entries: Entries, rank: map<Entity, nat>, closed: set<Entity>, x: Entity, target: Entity)
    requires Ranked(entries, rank) && x in entries && x in closed
    requires forall h, d :: h in closed && h in entries && d in entries[h].dependencies ==> d in closed
    requires Reaches(entries, rank, x, target)
    ensures target in closed
    decreases rank[x]
  {
    if x != target {
      var d :| d in entries[x].dependencies && EdgesDown(entries, rank, x) && Reaches(entries, rank, d, target);
      ClosedReaches(entries, rank, closed, d, target);
    }
  }

  // ----- Steps -----

  /** The new entry `s` for `id`, held once. */
  ghost function Added(g: Graph, s: Entity, entry: ResourceEntry): Graph {
    Graph(g.entries[s := entry], g.byId[entry.id := s], g.holds + multiset{s},
          g.holders[s := multiset{}], g.rank[s := 0])
  }

  lemma AddedOk(g: Graph, s: Entity, entry: ResourceEntry)
    requires GraphOk(g) && s !in g.entries && entry.id !in g.byId
    requires entry.acquires == 1 && entry.dependencies == []
    ensures GraphOk(Added(g, s, entry))
  {
    hide HoldersOf;
    hide IdsOk;
    hide CountsOk;
    hide EdgesDown;
    var g' := Added(g, s, entry);
    AddedIds(g, s, entry);
    AddedCounts(g, s, entry);
    AddedRanked(g, s, entry);
    forall d | d in g'.entries ensures HoldersOf(g'.entries, g'.holders[d], d) {
      AddedHolders(g, s, entry, d);
    }
  }

  lemma AddedIds(g: Graph, s: Entity, entry: ResourceEntry)
    requires GraphOk(g) && s !in g.entries && entry.id !in g.byId
    ensures IdsOk(Added(g, s, entry).entries, Added(g, s, entry).byId)
  {
    hide Ranked;
    hide HoldersOk;
    hide CountsOk;
  }

  lemma AddedRanked(g: Graph, s: Entity, entry: ResourceEntry)
    requires GraphOk(g) && s !in g.entries && entry.dependencies == []
    ensures Ranked(Added(g, s, entry).entries, Added(g, s, entry).rank)
  {
    hide IdsOk;
    hide HoldersOk;
    hide CountsOk;
    var g' := Added(g, s, entry);
    forall h | h in g'.entries ensures h in g'.rank && EdgesDown(g'.entries, g'.rank, h) {
      assert h != s ==> EdgesDown(g.entries, g.rank, h);
    }
  }

  lemma AddedCounts(g: Graph, s: Entity, entry: ResourceEntry)
    requires GraphOk(g) && s !in g.entries && entry.acquires == 1
    ensures CountsOk(Added(g, s, entry).entries, Added(g, s, entry).holds, Added(g, s, entry).holders)
  {
    hide IdsOk;
    hide Ranked;
    hide HoldersOf;
    var g' := Added(g, s, entry);
    forall x | x in g'.entries ensures CountOk(g'.entries, g'.holds, g'.holders, x) {
      assert x != s ==> CountOk(g.entries, g.holds, g.holders, x);
    }
  }

  lemma AddedHolders(g: Graph, s: Entity, entry: ResourceEntry, d: Entity)
    requires GraphOk(g) && s !in g.entries && entry.dependencies == []
    requires d == s || d in g.entries
    ensures d in Added(g, s, entry).holders && HoldersOf(Added(g, s, entry).entries, Added(g, s, entry).holders[d], d)
  {
    var g' := Added(g, s, entry);
    forall h ensures g'.holders[d][h] == EdgeCount(g'.entries, h, d) {
      if h in g.entries {
        assert EdgesDown(g.entries, g.rank, h);
      }
      if d in g.entries {
        assert HoldersOf(g.entries, g.holders[d], d);
        assert g.holders[d][h] == EdgeCount(g.entries, h, d);
      }
    }
  }

  /** One more hold, or one less, on `s`. */
  ghost function Recounted(g: Graph, s: Entity, acquires: nat, holds: multiset<Entity>): Graph
    requires s in g.entries
  {
    g.(entries := g.entries[s := g.entries[s].(acquires := acquires)], holds := holds)
  }

  lemma SameEdges(g: Graph, entries: Entries)
    requires GraphOk(g) && entries.Keys == g.entries.Keys
    requires forall s :: s in entries ==> entries[s].id == g.entries[s].id && entries[s].dependencies == g.entries[s].dependencies
    ensures IdsOk(entries, g.byId) && Ranked(entries, g.rank) && HoldersOk(entries, g.holders)
  {
    forall h | h in entries ensures h in g.rank && EdgesDown(entries, g.rank, h) {
      assert EdgesDown(g.entries, g.rank, h);
    }
    forall d | d in entries ensures HoldersOf(entries, g.holders[d], d) {
      assert HoldersOf(g.entries, g.holders[d], d);
      forall h ensures g.holders[d][h] == EdgeCount(entries, h, d) {
        assert g.holders[d][h] == EdgeCount(g.entries, h, d);
      }
    }
  }

  lemma AcquiredOk(g: Graph, s: Entity)
    requires GraphOk(g) && s in g.entries
    ensures GraphOk(Recounted(g, s, g.entries[s].acquires + 1, g.holds + multiset{s}))
  {
    hide IdsOk;
    hide Ranked;
    hide HoldersOk;
    hide CountsOk;
    var g' := Recounted(g, s, g.entries[s].acquires + 1, g.holds + multiset{s});
    SameEdges(g, g'.entries);
    RecountedCounts(g, s, g.entries[s].acquires + 1, g.holds + multiset{s});
  }

  lemma RecountedCounts(g: Graph, s: Entity, acquires: nat, holds: multiset<Entity>)
    requires s in g.entries && acquires + g.holds[s] == g.entries[s].acquires + holds[s]
    requires forall x :: x != s ==> holds[x] == g.holds[x]
    requires CountsOk(g.entries, g.holds, g.holders)
    ensures CountsOk(Recounted(g, s, acquires, holds).entries, holds, g.holders)
  {
    var g' := Recounted(g, s, acquires, holds);
    forall x | x in g'.entries ensures CountOk(g'.entries, holds, g.holders, x) {
      assert CountOk(g.entries, g.holds, g.holders, x);
    }
    forall x | x in holds ensures x in g'.entries {
      assert x != s ==> g.holds[x] > 0;
    }
  }

  lemma ReleasedOk(g: Graph, s: Entity)
    requires GraphOk(g) && s in g.holds
    ensures s in g.entries && g.entries[s].acquires > 0
    ensures GraphOk(Recounted(g, s, g.entries[s].acquires - 1, g.holds - multiset{s}))
  {
    hide IdsOk;
    hide Ranked;
    hide HoldersOk;
    hide CountsOk;
    HeldLive(g, s);
    var g' := Recounted(g, s, g.entries[s].acquires - 1, g.holds - multiset{s});
    SameEdges(g, g'.entries);
    RecountedCounts(g, s, g.entries[s].acquires - 1, g.holds - multiset{s});
  }

  /** With one acquisition of `s` less, `holds` account for every count. */
  ghost predicate AccountedFor(g: Graph, s: Entity, holds: multiset<Entity>)
    requires s in g.entries && g.entries[s].acquires > 0
  {
    GraphOk(Recounted(g, s, g.entries[s].acquires - 1, holds))
  }

  /** A count that goes down can stay the number of holds and edges, whoever is said to hold what afterwards,
      exactly if somebody outside held the entry. */
  lemma ReleaseExactly(g: Graph, s: Entity)
    requires GraphOk(g) && s in g.entries && g.entries[s].acquires > 0
    ensures s in g.holds <==> exists holds :: AccountedFor(g, s, holds)
  {
    if s in g.holds {
      ReleasedOk(g, s);
      assert AccountedFor(g, s, g.holds - multiset{s});
    } else {
      forall holds ensures !AccountedFor(g, s, holds) {
        assert CountOk(g.entries, g.holds, g.holders, s);
        var g' := Recounted(g, s, g.entries[s].acquires - 1, holds);
        assert CountsOk(g'.entries, holds, g'.holders) ==> CountOk(g'.entries, holds, g'.holders, s);
      }
    }
  }

  lemma HeldLive(g: Graph, s: Entity)
    requires GraphOk(g) && s in g.holds
    ensures s in g.entries && g.entries[s].acquires > 0
  {
    hide IdsOk;
    hide Ranked;
    hide HoldersOk;
    assert CountOk(g.entries, g.holds, g.holders, s);
  }

  /** A hold on `d` turned into a dependency of `h`. */
  ghost function Linked(g: Graph, h: Entity, d: Entity): Graph
    requires GraphOk(g) && h in g.entries && d in g.entries
  {
    Graph(g.entries[h := g.entries[h].(dependencies := g.entries[h].dependencies + [d])], g.byId,
          g.holds - multiset{d}, g.holders[d := g.holders[d] + multiset{h}],
          map x | x in g.entries :: if Reaches(g.entries, g.rank, x, h) then g.rank[x] + g.rank[d] + 1 else g.rank[x])
  }

  /** As long as `d` does not reach `h`, making it a dependency of `h` closes no cycle. */
  lemma LinkedOk(g: Graph, h: Entity, d: Entity)
    requires GraphOk(g) && h in g.entries && d in g.holds && d in g.entries
    requires !Reaches(g.entries, g.rank, d, h)
    ensures GraphOk(Linked(g, h, d))
  {
    hide IdsOk;
    hide Ranked;
    hide HoldersOf;
    hide CountsOk;
    hide Reaches;
    LinkedRanked(g, h, d);
    LinkedIds(g, h, d);
    LinkedCounts(g, h, d);
    forall e | e in g.entries ensures HoldersOf(Linked(g, h, d).entries, Linked(g, h, d).holders[e], e) {
      LinkedHolders(g, h, d, e);
    }
  }

  lemma LinkedIds(g: Graph, h: Entity, d: Entity)
    requires GraphOk(g) && h in g.entries && d in g.entries
    ensures IdsOk(Linked(g, h, d).entries, g.byId)
  {
    hide Ranked;
    hide HoldersOk;
    hide CountsOk;
    hide Reaches;
  }

  lemma LinkedCounts(g: Graph, h: Entity, d: Entity)
    requires GraphOk(g) && h in g.entries && d in g.holds && d in g.entries
    ensures CountsOk(Linked(g, h, d).entries, Linked(g, h, d).holds, Linked(g, h, d).holders)
  {
    hide IdsOk;
    hide Ranked;
    hide HoldersOf;
    hide Reaches;
    hide Linked;
    hide CountOk;
    LinkedParts(g, h, d);
    var g' := Linked(g, h, d);
    forall x | x in g'.entries ensures CountOk(g'.entries, g'.holds, g'.holders, x) {
      LinkedCount(g, h, d, x);
    }
    forall x | x in g'.holds ensures x in g'.entries {
      assert g.holds[x] > 0;
    }
  }

  lemma LinkedCount(g: Graph, h: Entity, d: Entity, x: Entity)
    requires GraphOk(g) && h in g.entries && d in g.holds && d in g.entries && x in g.entries
    ensures x in Linked(g, h, d).entries && CountOk(Linked(g, h, d).entries, Linked(g, h, d).holds, Linked(g, h, d).holders, x)
  {
    hide IdsOk;
    hide Ranked;
    hide HoldersOf;
    hide Reaches;
    hide Linked;
    LinkedParts(g, h, d);
    assert CountOk(g.entries, g.holds, g.holders, x);
  }

  lemma LinkedParts(g: Graph, h: Entity, d: Entity)
    requires GraphOk(g) && h in g.entries && d in g.entries
    ensures var g' := Linked(g, h, d);
            && g'.entries.Keys == g.entries.Keys && g'.holders.Keys == g.holders.Keys && d in g.holders
            && (forall x :: x in g.entries ==> g'.entries[x].acquires == g.entries[x].acquires)
            && g'.holds == g.holds - multiset{d}
            && (forall x :: x in g.holders && x != d ==> g'.holders[x] == g.holders[x])
            && |g'.holders[d]| == |g.holders[d]| + 1
  {
    hide IdsOk;
    hide Ranked;
    hide HoldersOf;
    hide CountsOk;
    hide Reaches;
  }

  lemma LinkedRanked(g: Graph, h: Entity, d: Entity)
    requires GraphOk(g) && h in g.entries && d in g.entries && !Reaches(g.entries, g.rank, d, h)
    ensures Ranked(Linked(g, h, d).entries, Linked(g, h, d).rank)
  {
    hide IdsOk;
    hide HoldersOk;
    hide CountsOk;
    hide Reaches;
    var g' := Linked(g, h, d);
    forall x | x in g'.entries ensures x in g'.rank && EdgesDown(g'.entries, g'.rank, x) {
      forall y | y in g'.entries[x].dependencies ensures y in g'.entries && y in g'.rank && g'.rank[y] < g'.rank[x] {
        LinkedEdge(g, h, d, x, y);
      }
    }
  }

  lemma LinkedEdge(g: Graph, h: Entity, d: Entity, x: Entity, y: Entity)
    requires GraphOk(g) && h in g.entries && d in g.entries && !Reaches(g.entries, g.rank, d, h)
    requires x in g.entries && (y in g.entries[x].dependencies || (x == h && y == d))
    ensures y in g.entries && y in Linked(g, h, d).rank && Linked(g, h, d).rank[y] < Linked(g, h, d).rank[x]
  {
    hide IdsOk;
    hide HoldersOk;
    hide CountsOk;
    assert EdgesDown(g.entries, g.rank, x);
    if y in g.entries[x].dependencies {
      assert Reaches(g.entries, g.rank, y, h) ==> Reaches(g.entries, g.rank, x, h);
    } else {
      assert Reaches(g.entries, g.rank, h, h);
    }
  }

  lemma LinkedHolders(g: Graph, h: Entity, d: Entity, e: Entity)
    requires GraphOk(g) && h in g.entries && d in g.entries && e in g.entries
    ensures HoldersOf(Linked(g, h, d).entries, Linked(g, h, d).holders[e], e)
  {
    hide Reaches;
    hide Ranked;
    var g' := Linked(g, h, d);
    assert HoldersOf(g.entries, g.holders[e], e);
    forall x ensures g'.holders[e][x] == EdgeCount(g'.entries, x, e) {
      assert g.holders[e][x] == EdgeCount(g.entries, x, e);
      if x == h {
        assert multiset(g'.entries[h].dependencies) == multiset(g.entries[h].dependencies) + multiset{d};
      }
    }
  }

  /** The entry `s` gone, its edges handed to the caller as holds. */
  ghost function Freed(g: Graph, s: Entity): Graph
    requires s in g.entries && g.holders.Keys == g.entries.Keys
  {
    Graph(g.entries - {s}, g.byId - {g.entries[s].id}, g.holds + multiset(g.entries[s].dependencies),
          map d | d in g.entries && d != s :: g.holders[d][s := 0], g.rank)
  }

  lemma Unheld(g: Graph, s: Entity)
    requires GraphOk(g) && s in g.entries && g.entries[s].acquires == 0
    ensures s !in g.holds && forall h :: h in g.entries ==> s !in g.entries[h].dependencies
  {
    assert HoldersOf(g.entries, g.holders[s], s);
    assert |g.holders[s]| == 0;
    forall h | h in g.entries ensures s !in g.entries[h].dependencies {
      assert g.holders[s][h] == EdgeCount(g.entries, h, s);
      assert g.holders[s] == multiset{};
    }
  }

  lemma FreedOk(g: Graph, s: Entity)
    requires GraphOk(g) && s in g.entries && g.entries[s].acquires == 0
    ensures GraphOk(Freed(g, s))
  {
    hide IdsOk;
    hide Ranked;
    hide HoldersOf;
    hide CountsOk;
    var g' := Freed(g, s);
    FreedRanked(g, s);
    FreedIds(g, s);
    FreedCounts(g, s);
    forall d | d in g'.entries ensures HoldersOf(g'.entries, g'.holders[d], d) {
      FreedHolders(g, s, d);
    }
  }

  lemma FreedIds(g: Graph, s: Entity)
    requires GraphOk(g) && s in g.entries
    ensures IdsOk(Freed(g, s).entries, Freed(g, s).byId)
  {
    hide Ranked;
    hide HoldersOf;
    hide CountsOk;
  }

  lemma FreedRanked(g: Graph, s: Entity)
    requires GraphOk(g) && s in g.entries && g.entries[s].acquires == 0
    ensures Ranked(Freed(g, s).entries, g.rank)
  {
    hide IdsOk;
    hide HoldersOf;
    hide CountsOk;
    Unheld(g, s);
    var g' := Freed(g, s);
    forall h | h in g'.entries ensures h in g'.rank && EdgesDown(g'.entries, g'.rank, h) {
      assert EdgesDown(g.entries, g.rank, h);
    }
  }

  lemma FreedCounts(g: Graph, s: Entity)
    requires GraphOk(g) && s in g.entries && g.entries[s].acquires == 0
    ensures CountsOk(Freed(g, s).entries, Freed(g, s).holds, Freed(g, s).holders)
  {
    hide IdsOk;
    hide HoldersOf;
    var g' := Freed(g, s);
    Unheld(g, s);
    assert EdgesDown(g.entries, g.rank, s);
    forall d | d in g'.entries ensures CountOk(g'.entries, g'.holds, g'.holders, d) {
      assert CountOk(g.entries, g.holds, g.holders, d);
      HoldersAt(g, d, s);
      CardWithout(g.holders[d], s);
    }
    forall x | x in g'.holds ensures x in g'.entries {
      assert x in g.holds || x in g.entries[s].dependencies;
    }
  }

  lemma HoldersAt(g: Graph, d: Entity, h: Entity)
    requires GraphOk(g) && d in g.entries
    ensures d in g.holders && g.holders[d][h] == EdgeCount(g.entries, h, d)
  {
    assert HoldersOf(g.entries, g.holders[d], d);
  }

  lemma FreedHolders(g: Graph, s: Entity, d: Entity)
    requires GraphOk(g) && s in g.entries && d in g.entries && d != s
    ensures HoldersOf(Freed(g, s).entries, Freed(g, s).holders[d], d)
  {
    var g' := Freed(g, s);
    assert HoldersOf(g.entries, g.holders[d], d);
    forall h ensures g'.holders[d][h] == EdgeCount(g'.entries, h, d) {
      assert g.holders[d][h] == EdgeCount(g.entries, h, d);
    }
  }

  lemma CardWithout(m: multiset<Entity>, x: Entity)
    ensures |m[x := 0]| == |m| - m[x]
  {
    assert m == m[x := 0] + multiset{}[x := m[x]];
  }

  // ----- What is wanted -----

  ghost predicate Root(g: Graph, s: Entity) {
    s in g.entries && (s in g.holds || g.entries[s].loading)
  }

  /** An entry somebody holds or is loading, or a dependency of a wanted entry, however far. */
  ghost predicate Wanted(g: Graph, s: Entity)
    requires Ranked(g.entries, g.rank)
  {
    exists r :: Root(g, r) && Reaches(g.entries, g.rank, r, s)
  }

  lemma {:induction false} ReachesNext(entries: Entries, rank: map<Entity, nat>, x: Entity, h: Entity, d: Entity)
    requires Ranked(entries, rank) && x in entries && h in entries && d in entries[h].dependencies
    requires Reaches(entries, rank, x, h)
    ensures Reaches(entries, rank, x, d)
    decreases rank[x]
  {
    if x == h {
      assert EdgesDown(entries, rank, x);
      assert d in entries;
      assert Reaches(entries, rank, d, d);
    } else {
      var e :| e in entries[x].dependencies && EdgesDown(entries, rank, x) && Reaches(entries, rank, e, h);
      ReachesNext(entries, rank, e, h, d);
    }
  }

  /** What reaches `s` from elsewhere passes through an entry that depends on `s`. */
  lemma {:induction false} ReachesLast(entries: Entries, rank: map<Entity, nat>, x: Entity, s: Entity) returns (h: Entity)
    requires Ranked(entries, rank) && x in entries && Reaches(entries, rank, x, s) && x != s
    ensures h in entries && s in entries[h].dependencies && Reaches(entries, rank, x, h)
    decreases rank[x]
  {
    var d :| d in entries[x].dependencies && EdgesDown(entries, rank, x) && Reaches(entries, rank, d, s);
    if d == s {
      h := x;
    } else {
      h := ReachesLast(entries, rank, d, s);
    }
  }

  /** `g` is `g0` with some entries gone; those left kept their edges, their holds and their loads. */
  ghost predicate Thinned(g0: Graph, g: Graph) {
    && g.entries.Keys <= g0.entries.Keys && g.holds == g0.holds && g.rank == g0.rank
    && forall s :: s in g.entries ==> SameEntry(g0.entries, g.entries[s], s)
  }

  ghost predicate SameEntry(entries0: Entries, e: ResourceEntry, s: Entity) {
    && s in entries0 && e.id == entries0[s].id && e.state == entries0[s].state
    && e.dependencies == entries0[s].dependencies && e.loading == entries0[s].loading
  }

  /** What is wanted and not a root is a dependency of something wanted. */
  lemma WantedThrough(g: Graph, s: Entity) returns (h: Entity)
    requires Ranked(g.entries, g.rank) && Wanted(g, s) && !Root(g, s)
    ensures h in g.entries && s in g.entries[h].dependencies && Wanted(g, h)
  {
    hide Reaches;
    hide Ranked;
    var r :| Root(g, r) && Reaches(g.entries, g.rank, r, s);
    h := ReachesLast(g.entries, g.rank, r, s);
  }

  /** As long as nothing wanted went, an entry that may be freed is not wanted either. */
  lemma FreeableUnwanted(g0: Graph, g: Graph, s: Entity)
    requires GraphOk(g0) && GraphOk(g) && Thinned(g0, g)
    requires forall x :: x in g0.entries && Wanted(g0, x) ==> x in g.entries
    requires s in g.entries && g.entries[s].acquires == 0 && !g.entries[s].loading
    ensures !Wanted(g0, s)
  {
    hide Wanted;
    hide IdsOk;
    hide HoldersOk;
    hide CountsOk;
    Unheld(g, s);
    assert SameEntry(g0.entries, g.entries[s], s);
    if Wanted(g0, s) {
      var h := WantedThrough(g0, s);
      SameDependencies(g0, g, h);
    }
  }

  lemma SameDependencies(g0: Graph, g: Graph, h: Entity)
    requires Thinned(g0, g) && h in g.entries
    ensures h in g0.entries && g.entries[h].dependencies == g0.entries[h].dependencies
  {
    assert SameEntry(g0.entries, g.entries[h], h);
  }

  /** When nothing is left that may be freed, everything left is wanted. */
  lemma {:induction false} LeftAreWanted(g0: Graph, g: Graph, s: Entity, top: nat)
    requires GraphOk(g0) && GraphOk(g) && Thinned(g0, g)
    requires forall x :: x in g.entries ==> g.entries[x].acquires > 0 || g.entries[x].loading
    requires forall x :: x in g.entries ==> g.rank[x] <= top
    requires s in g.entries
    ensures Wanted(g0, s)
    decreases top - g.rank[s]
  {
    hide Reaches;
    hide IdsOk;
    hide CountsOk;
    assert SameEntry(g0.entries, g.entries[s], s);
    if s in g.holds || g.entries[s].loading {
      assert Root(g0, s);
      ReachesSelf(g0, s);
    } else {
      var h := SomeHolder(g, s);
      assert SameEntry(g0.entries, g.entries[h], h);
      assert EdgesDown(g.entries, g.rank, h);
      LeftAreWanted(g0, g, h, top);
      var r :| Root(g0, r) && Reaches(g0.entries, g0.rank, r, h);
      ReachesNext(g0.entries, g0.rank, r, h, s);
    }
  }

  lemma ReachesSelf(g: Graph, s: Entity)
    requires Ranked(g.entries, g.rank) && s in g.entries
    ensures Reaches(g.entries, g.rank, s, s)
  {
  }

  /** An entry that is counted but not held from outside is a dependency of a live entry. */
  lemma SomeHolder(g: Graph, s: Entity) returns (h: Entity)
    requires GraphOk(g) && s in g.entries && g.entries[s].acquires > 0 && s !in g.holds
    ensures h in g.entries && s in g.entries[h].dependencies
  {
    hide IdsOk;
    hide Ranked;
    assert CountOk(g.entries, g.holds, g.holders, s);
    assert |g.holders[s]| > 0;
    h :| h in g.holders[s];
    HoldersAt(g, s, h);
  }

  lemma RankBound(entries: Entries, rank: map<Entity, nat>) returns (top: nat)
    requires Ranked(entries, rank)
    ensures forall x :: x in entries ==> rank[x] <= top
  {
    top := 0;
    var rest := entries.Keys;
    while rest != {}
      invariant rest <= entries.Keys
      invariant forall x :: x in entries && x !in rest ==> rank[x] <= top
      decreases |rest|
    {
      var x :| x in rest;
      rest := rest - {x};
      if rank[x] > top {
        top := rank[x];
      }
    }
  }

  /** Freeing what may be freed, until nothing is left that may be, keeps exactly what is wanted. */
  lemma ExactlyWanted(g0: Graph, g: Graph)
    requires GraphOk(g0) && GraphOk(g) && Thinned(g0, g)
    requires forall x :: x in g0.entries && Wanted(g0, x) ==> x in g.entries
    requires forall x :: x in g.entries ==> g.entries[x].acquires > 0 || g.entries[x].loading
    ensures forall x :: x in g0.entries ==> (x in g.entries <==> Wanted(g0, x))
  {
    hide Wanted;
    hide IdsOk;
    hide HoldersOk;
    hide CountsOk;
    var top := RankBound(g.entries, g.rank);
    forall x | x in g.entries ensures Wanted(g0, x) {
      LeftAreWanted(g0, g, x, top);
    }
  }

  /** With nobody holding and nothing loading, nothing is wanted. */
  lemma NothingWanted(g: Graph, s: Entity)
    requires GraphOk(g) && g.holds == multiset{}
    requires forall x :: x in g.entries ==> !g.entries[x].loading
    ensures !Wanted(g, s)
  {
  }

  // ----- Searching -----

  /** A depth-first search from `from`: everything met is reachable, and what was visited is closed but for
      what is pending. */
  ghost predicate Searching(g: Graph, from: Entity, target: Entity, pending: seq<Entity>, seen: set<Entity>)
    requires Ranked(g.entries, g.rank) && from in g.entries
  {
    && (forall p :: p in pending ==> p in g.entries && Reaches(g.entries, g.rank, from, p))
    && (forall h :: h in seen ==> h in g.entries && h != target)
    && (forall h, d :: h in seen && h in g.entries && d in g.entries[h].dependencies ==> d in seen || d in pending)
    && (from in seen || from in pending)
    && (forall h :: h in seen ==> Reaches(g.entries, g.rank, from, h))
  }

  lemma SearchStarts(g: Graph, from: Entity, target: Entity)
    requires Ranked(g.entries, g.rank) && from in g.entries
    ensures Searching(g, from, target, [from], {})
  {
  }

  lemma SearchTop(g: Graph, from: Entity, target: Entity, pending: seq<Entity>, seen: set<Entity>)
    requires Ranked(g.entries, g.rank) && from in g.entries && Searching(g, from, target, pending, seen) && pending != []
    ensures pending[|pending| - 1] in g.entries && Reaches(g.entries, g.rank, from, pending[|pending| - 1])
  {
    assert pending[|pending| - 1] in pending;
  }

  lemma SearchSkips(g: Graph, from: Entity, target: Entity, pending: seq<Entity>, seen: set<Entity>)
    requires Ranked(g.entries, g.rank) && from in g.entries && Searching(g, from, target, pending, seen)
    requires pending != [] && pending[|pending| - 1] in seen
    ensures Searching(g, from, target, pending[..|pending| - 1], seen)
  {
    hide Ranked;
    hide Reaches;
    var rest, last := pending[..|pending| - 1], pending[|pending| - 1];
    assert pending == rest + [last];
  }

  lemma SearchVisits(g: Graph, from: Entity, target: Entity, pending: seq<Entity>, seen: set<Entity>)
    requires Ranked(g.entries, g.rank) && from in g.entries && Searching(g, from, target, pending, seen)
    requires pending != [] && pending[|pending| - 1] != target && pending[|pending| - 1] in g.entries
    ensures var last := pending[|pending| - 1];
            Searching(g, from, target, pending[..|pending| - 1] + g.entries[last].dependencies, seen + {last})
  {
    hide Reaches;
    var rest, last := pending[..|pending| - 1], pending[|pending| - 1];
    assert pending == rest + [last];
    assert last in pending;
    assert EdgesDown(g.entries, g.rank, last);
    forall d | d in g.entries[last].dependencies ensures d in g.entries && Reaches(g.entries, g.rank, from, d) {
      ReachesNext(g.entries, g.rank, from, last, d);
    }
  }

  lemma SearchEnds(g: Graph, from: Entity, target: Entity, seen: set<Entity>)
    requires Ranked(g.entries, g.rank) && from in g.entries && Searching(g, from, target, [], seen)
    ensures !Reaches(g.entries, g.rank, from, target)
  {
    if Reaches(g.entries, g.rank, from, target) {
      ClosedReaches(g.entries, g.rank, seen, from, target);
    }
  }

  /** The indices of the visited entries, all that the search keeps of them. */
  ghost predicate IndicesOf(visited: set<nat>, seen: set<Entity>) {
    && (forall e :: e in seen ==> e.index in visited)
    && (forall i :: i in visited ==> exists e :: e in seen && e.index == i)
  }

  ghost predicate OnePerIndex(live: set<Entity>) {
    forall x, y :: x in live && y in live && x.index == y.index ==> x == y
  }

  /** Among live entries an index tells who was visited. */
  lemma VisitedMeansSeen(visited: set<nat>, seen: set<Entity>, live: set<Entity>, e: Entity)
    requires IndicesOf(visited, seen) && OnePerIndex(live) && seen <= live && e in live
    ensures e.index in visited <==> e in seen
    ensures IndicesOf(visited + {e.index}, seen + {e})
  {
    if e.index in visited {
      var x :| x in seen && x.index == e.index;
      assert x in live;
    }
  }

  lemma {:induction false} ReachesSame(entries0: Entries, entries: Entries, rank: map<Entity, nat>, x: Entity, target: Entity)
    requires Ranked(entries0, rank) && Ranked(entries, rank) && entries0.Keys == entries.Keys && x in entries
    requires forall s :: s in entries ==> entries[s].dependencies == entries0[s].dependencies
    ensures Reaches(entries, rank, x, target) <==> Reaches(entries0, rank, x, target)
    decreases rank[x]
  {
    if x != target {
      assert EdgesDown(entries, rank, x) && EdgesDown(entries0, rank, x);
      forall d | d in entries[x].dependencies ensures Reaches(entries, rank, d, target) <==> Reaches(entries0, rank, d, target) {
        ReachesSame(entries0, entries, rank, d, target);
      }
    }
  }
}
