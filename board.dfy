/**
  The board engine of src/model.rs as a class: the block vector, the two counters and
  the game status are fields that the operations update in place.

  Randomness and the clock are parameters: the mine sampler is an oracle sequence of
  draws in `[0, rows*cols - 2]`, and every "now" is a timestamp supplied by the caller.
 */
module BoardEngine {
  import opened Wrappers
  import opened Model
  import Config

  /** A value copy of the board's mutable fields, for stating what an operation did. */
  datatype State = State(blocks: seq<Block>, restCount: int, markCount: int, status: BoardStatus)

  // ---------------------------------------------------------------------------
  // Mine placement
  // ---------------------------------------------------------------------------

  /** Flat indices holding a mine. */
  ghost function MineSet(blocks: seq<Block>): set<nat> {
    set i | 0 <= i < |blocks| && blocks[i].hasMine
  }

  /** A draw in `[0, mapsize - 2]` shifted past the clicked index. */
  function Skip(s: nat, chosen: nat): (r: nat)
    ensures r != chosen
    ensures r == s || r == s + 1
  {
    if s < chosen then s else s + 1
  }

  /** The set of indices the draws in `samples` name. */
  ghost function MappedSet(samples: seq<nat>, chosen: nat): set<nat> {
    if samples == [] then {}
    else MappedSet(samples[..|samples| - 1], chosen) + {Skip(samples[|samples| - 1], chosen)}
  }

  ghost predicate SamplesFit(mapsize: nat, samples: seq<nat>) {
    forall k :: 0 <= k < |samples| ==> samples[k] + 2 <= mapsize
  }

  /** What the first open of a Ready board needs: draws in range, and enough distinct ones
      among them to place `count >= 1` mines (the source's sampler never stops otherwise). */
  ghost predicate CanStart(mapsize: nat, count: nat, chosen: nat, samples: seq<nat>) {
    SamplesFit(mapsize, samples) && 1 <= count <= |MappedSet(samples, chosen)|
  }

  /** The mines are exactly the first `count` distinct indices the draws name. */
  ghost predicate MinesPlaced(blocks: seq<Block>, chosen: nat, samples: seq<nat>, count: nat) {
    exists k :: 0 <= k <= |samples| && MineSet(blocks) == MappedSet(samples[..k], chosen)
                && |MineSet(blocks)| == count
  }

  lemma SameMinesMineSet(a: seq<Block>, b: seq<Block>)
    requires SameMines(a, b)
    ensures MineSet(a) == MineSet(b)
  {
  }

  lemma {:induction false} MappedSetBounds(samples: seq<nat>, chosen: nat, mapsize: nat)
    requires SamplesFit(mapsize, samples)
    ensures forall i :: i in MappedSet(samples, chosen) ==> i < mapsize && i != chosen
  {
    if samples != [] {
      MappedSetBounds(samples[..|samples| - 1], chosen, mapsize);
    }
  }

  lemma {:induction false} MappedPrefixGrows(samples: seq<nat>, chosen: nat, j: nat, k: nat)
    requires j <= k <= |samples|
    ensures MappedSet(samples[..j], chosen) <= MappedSet(samples[..k], chosen)
  {
    if j < k {
      MappedPrefixGrows(samples, chosen, j, k - 1);
      assert samples[..k][..k - 1] == samples[..k - 1];
    }
  }

  lemma SubsetSameSize<T>(a: set<T>, b: set<T>)
    requires a <= b && |a| == |b|
    ensures a == b
  {
    assert b == a + (b - a);
    assert |b| == |a| + |b - a|;
  }

  /** The mine layout a draw sequence produces is determined by it: every prefix that names
      `count` distinct indices names the same ones, and the clicked block is never among them. */
  lemma PlacementDetermined(a: seq<Block>, b: seq<Block>, chosen: nat, samples: seq<nat>, count: nat)
    requires MinesPlaced(a, chosen, samples, count) && MinesPlaced(b, chosen, samples, count)
    ensures MineSet(a) == MineSet(b)
    ensures chosen !in MineSet(a)
  {
    var ka :| 0 <= ka <= |samples| && MineSet(a) == MappedSet(samples[..ka], chosen) && |MineSet(a)| == count;
    var kb :| 0 <= kb <= |samples| && MineSet(b) == MappedSet(samples[..kb], chosen) && |MineSet(b)| == count;
    if ka <= kb {
      MappedPrefixGrows(samples, chosen, ka, kb);
      SubsetSameSize(MineSet(a), MineSet(b));
    } else {
      MappedPrefixGrows(samples, chosen, kb, ka);
      SubsetSameSize(MineSet(b), MineSet(a));
    }
    MappedNeverChosen(samples[..ka], chosen);
  }

  lemma PlacementSize(blocks: seq<Block>, chosen: nat, samples: seq<nat>, count: nat)
    requires MinesPlaced(blocks, chosen, samples, count)
    ensures |MineSet(blocks)| == count
  {
  }

  lemma {:induction false} MappedNeverChosen(samples: seq<nat>, chosen: nat)
    ensures chosen !in MappedSet(samples, chosen)
  {
    if samples != [] {
      MappedNeverChosen(samples[..|samples| - 1], chosen);
    }
  }

  /** The sampling loop of a game start: fresh blocks, then a mine at each index the draws
      name, skipping repeats, until `count` mines are placed. */
  method PlaceMines(mapsize: nat, count: nat, chosen: nat, samples: seq<nat>) returns (b: seq<Block>)
    requires chosen < mapsize && CanStart(mapsize, count, chosen, samples)
    ensures |b| == mapsize
    ensures forall i :: 0 <= i < |b| ==> b[i].status == BlockStatus.Normal && b[i].cachedNumber.None?
    ensures MinesPlaced(b, chosen, samples, count)
    ensures !b[chosen].hasMine
  {
    var k;
    b, k := SampleMines(mapsize, count, chosen, samples);
    PlacementDone(b, chosen, samples, count, k, mapsize);
  }

  /** The loop itself: the mines are those the first `k` draws name, `count` of them. */
  method SampleMines(mapsize: nat, count: nat, chosen: nat, samples: seq<nat>) returns (b: seq<Block>, k: nat)
    requires CanStart(mapsize, count, chosen, samples)
    ensures k <= |samples|
    ensures PlacedBlocks(b, MappedSet(samples[..k], chosen), mapsize)
    ensures |MappedSet(samples[..k], chosen)| == count
  {
    b := seq(mapsize, _ => DefaultBlock);
    MappedAll(samples, chosen);
    var mineCounter := 0;
    var next := 0;
    ghost var placed: set<nat> := {};
    while mineCounter < count
      invariant 0 <= next <= |samples|
      invariant placed == MappedSet(samples[..next], chosen)
      invariant mineCounter == |placed| <= count
      invariant mineCounter < count ==> next < |samples|
      invariant PlacedBlocks(b, placed, mapsize)
      decreases |samples| - next
    {
      MappedStep(samples, chosen, next);
      var mineIdx := Skip(samples[next], chosen);
      next := next + 1;
      if b[mineIdx].hasMine {
        PlaceAgain(b, placed, mapsize, mineIdx);
        placed := placed + {mineIdx};
        continue;
      }
      PlaceStep(b, placed, mapsize, mineIdx);
      b := b[mineIdx := b[mineIdx].(hasMine := true)];
      placed := placed + {mineIdx};
      mineCounter := mineCounter + 1;
    }
    k := next;
  }

  lemma PlacementDone(b: seq<Block>, chosen: nat, samples: seq<nat>, count: nat, k: nat, mapsize: nat)
    requires SamplesFit(mapsize, samples) && k <= |samples|
    requires PlacedBlocks(b, MappedSet(samples[..k], chosen), mapsize)
    requires |MappedSet(samples[..k], chosen)| == count && chosen < mapsize
    ensures |b| == mapsize
    ensures forall i :: 0 <= i < |b| ==> b[i].status == BlockStatus.Normal && b[i].cachedNumber.None?
    ensures MinesPlaced(b, chosen, samples, count)
    ensures !b[chosen].hasMine
  {
    var placed := MappedSet(samples[..k], chosen);
    MappedSetBounds(samples, chosen, mapsize);
    MappedAll(samples, chosen);
    MappedPrefixGrows(samples, chosen, k, |samples|);
    PlacedIsMineSet(b, placed, mapsize);
    MappedNeverChosen(samples[..k], chosen);
  }

  /** The blocks are fresh, with a mine exactly at the indices of `placed`. */
  ghost predicate PlacedBlocks(b: seq<Block>, placed: set<nat>, mapsize: nat) {
    |b| == mapsize && forall i :: 0 <= i < mapsize ==> b[i] == Block(i in placed, None, BlockStatus.Normal)
  }

  /** A draw naming a block that already has a mine changes nothing. */
  lemma PlaceAgain(b: seq<Block>, placed: set<nat>, mapsize: nat, i: nat)
    requires PlacedBlocks(b, placed, mapsize) && i < mapsize && b[i].hasMine
    ensures placed + {i} == placed
  {
  }

  /** A draw naming a fresh block places one more mine. */
  lemma PlaceStep(b: seq<Block>, placed: set<nat>, mapsize: nat, i: nat)
    requires PlacedBlocks(b, placed, mapsize) && i < mapsize && !b[i].hasMine
    ensures PlacedBlocks(b[i := b[i].(hasMine := true)], placed + {i}, mapsize)
    ensures |placed + {i}| == |placed| + 1
  {
  }

  lemma MappedStep(samples: seq<nat>, chosen: nat, k: nat)
    requires k < |samples|
    ensures MappedSet(samples[..k + 1], chosen) == MappedSet(samples[..k], chosen) + {Skip(samples[k], chosen)}
  {
    assert samples[..k + 1][..k] == samples[..k];
  }

  lemma MappedAll(samples: seq<nat>, chosen: nat)
    ensures MappedSet(samples[..|samples|], chosen) == MappedSet(samples, chosen)
  {
    assert samples[..|samples|] == samples;
  }

  lemma PlacedIsMineSet(b: seq<Block>, placed: set<nat>, mapsize: nat)
    requires PlacedBlocks(b, placed, mapsize)
    requires forall i :: i in placed ==> i < mapsize
    ensures MineSet(b) == placed
  {
  }

  // ---------------------------------------------------------------------------
  // The flood of a chord
  // ---------------------------------------------------------------------------

  /** A flood over an abstract graph: `adj[i]` are the neighbours of node `i`, `zero[i]` says
      whether the flood spreads on from `i`, and `normal[i]` whether `i` may be opened.
      `order` lists, without repetition, the nodes opened from `t`: each could be opened and
      was reached from `t` or from an earlier spreading node, and every openable neighbour of
      `t` or of an opened spreading node is among them. */
  ghost predicate FloodOf(adj: seq<set<nat>>, zero: seq<bool>, normal: seq<bool>, t: nat, order: seq<nat>)
    requires |adj| == |zero| == |normal| && t < |adj|
  {
    && (forall k :: 0 <= k < |order| ==> order[k] < |adj| && normal[order[k]])
    && (forall k :: 0 <= k < |order| ==>
          order[k] in adj[t] || exists m :: 0 <= m < k && zero[order[m]] && order[k] in adj[order[m]])
    && (forall a, b :: 0 <= a < b < |order| ==> order[a] != order[b])
    && (forall j :: j in adj[t] && j < |normal| && normal[j] ==> j in order)
    && (forall m, j :: 0 <= m < |order| && zero[order[m]] && j in adj[order[m]] && j < |normal| && normal[j]
          ==> j in order)
  }

  /** Two floods from the same node open the same nodes: each lies inside the other. */
  lemma FloodOfDetermined(adj: seq<set<nat>>, zero: seq<bool>, normal: seq<bool>, t: nat, o1: seq<nat>, o2: seq<nat>)
    requires |adj| == |zero| == |normal| && t < |adj|
    requires FloodOf(adj, zero, normal, t, o1) && FloodOf(adj, zero, normal, t, o2)
    ensures forall j :: j in o1 <==> j in o2
  {
    FloodWithin(adj, zero, normal, t, o1, o2, |o1|);
    FloodWithin(adj, zero, normal, t, o2, o1, |o2|);
  }

  lemma {:induction false} FloodWithin(adj: seq<set<nat>>, zero: seq<bool>, normal: seq<bool>, t: nat,
                                       o1: seq<nat>, o2: seq<nat>, n: nat)
    requires |adj| == |zero| == |normal| && t < |adj|
    requires FloodOf(adj, zero, normal, t, o1) && FloodOf(adj, zero, normal, t, o2) && n <= |o1|
    ensures forall k :: 0 <= k < n ==> o1[k] in o2
  {
    if n > 0 {
      FloodWithin(adj, zero, normal, t, o1, o2, n - 1);
      var j := o1[n - 1];
      if j !in adj[t] {
        var m :| 0 <= m < n - 1 && zero[o1[m]] && j in adj[o1[m]];
        assert o1[m] in o2;
        var i :| 0 <= i < |o2| && o2[i] == o1[m];
      }
    }
  }

  /** The neighbour sets of all blocks of a `rows` by `cols` board, by flat index. */
  ghost function Adjacency(rows: nat, cols: nat): (adj: seq<set<nat>>)
    ensures |adj| == rows * cols
    ensures forall i :: 0 <= i < rows * cols ==> adj[i] == NbrSet(rows, cols, i)
  {
    seq(rows * cols, i requires 0 <= i < rows * cols => NbrSet(rows, cols, i))
  }

  /** Which blocks have adjacent-mine number 0 (the flood spreads from these). */
  ghost function Zeros(rows: nat, cols: nat, b: seq<Block>): (z: seq<bool>)
    requires |b| == rows * cols
    ensures |z| == |b|
    ensures forall i :: 0 <= i < |b| ==> z[i] == (NumberAt(rows, cols, b, i) == Some(0))
  {
    seq(|b|, i requires 0 <= i < |b| => NumberAt(rows, cols, b, i) == Some(0))
  }

  /** Which blocks are Normal (only these are opened). */
  ghost function Normals(b: seq<Block>): (n: seq<bool>)
    ensures |n| == |b|
    ensures forall i :: 0 <= i < |b| ==> n[i] == (b[i].status == BlockStatus.Normal)
  {
    seq(|b|, i requires 0 <= i < |b| => b[i].status == BlockStatus.Normal)
  }

  /** `order` lists the blocks a flood from block `t` opens on blocks `b0`. */
  ghost predicate FloodFrom(rows: nat, cols: nat, b0: seq<Block>, t: nat, order: seq<nat>) {
    && |b0| == rows * cols && t < |b0|
    && FloodOf(Adjacency(rows, cols), Zeros(rows, cols, b0), Normals(b0), t, order)
  }

  /** The blocks a chord opens are determined by the board. */
  lemma FloodDetermined(rows: nat, cols: nat, b0: seq<Block>, t: nat, o1: seq<nat>, o2: seq<nat>)
    requires FloodFrom(rows, cols, b0, t, o1) && FloodFrom(rows, cols, b0, t, o2)
    ensures forall j :: j in o1 <==> j in o2
  {
    FloodOfDetermined(Adjacency(rows, cols), Zeros(rows, cols, b0), Normals(b0), t, o1, o2);
  }

  /** The state of a breadth-first flood part-way: `order` opened so far, `qs` still queued.
      Opened nodes are justified as in a finished flood, queued nodes are justified by `t` or
      an opened spreading node, and every openable node such a neighbourhood reaches is
      either opened or still queued. */
  ghost predicate FloodPending(adj: seq<set<nat>>, zero: seq<bool>, normal: seq<bool>, t: nat,
                               order: seq<nat>, qs: seq<nat>)
    requires |adj| == |zero| == |normal| && t < |adj|
  {
    && (forall k :: 0 <= k < |order| ==> order[k] < |adj| && normal[order[k]])
    && (forall k :: 0 <= k < |order| ==>
          order[k] in adj[t] || exists m :: 0 <= m < k && zero[order[m]] && order[k] in adj[order[m]])
    && (forall a, b :: 0 <= a < b < |order| ==> order[a] != order[b])
    && (forall k :: 0 <= k < |qs| ==>
          qs[k] in adj[t] || exists m :: 0 <= m < |order| && zero[order[m]] && qs[k] in adj[order[m]])
    && (forall j :: j in adj[t] && j < |normal| && normal[j] ==> j in order || j in qs)
    && (forall m, j :: 0 <= m < |order| && zero[order[m]] && j in adj[order[m]] && j < |normal| && normal[j]
          ==> j in order || j in qs)
  }

  lemma FloodPendingStart(adj: seq<set<nat>>, zero: seq<bool>, normal: seq<bool>, t: nat, qs: seq<nat>)
    requires |adj| == |zero| == |normal| && t < |adj|
    requires forall j :: j in qs <==> j in adj[t]
    ensures FloodPending(adj, zero, normal, t, [], qs)
  {
  }

  /** Popping a node that is already open or may not be opened. */
  lemma FloodPendingSkip(adj: seq<set<nat>>, zero: seq<bool>, normal: seq<bool>, t: nat,
                         order: seq<nat>, qs: seq<nat>)
    requires |adj| == |zero| == |normal| && t < |adj|
    requires FloodPending(adj, zero, normal, t, order, qs) && qs != []
    requires qs[0] in order || qs[0] >= |normal| || !normal[qs[0]]
    ensures FloodPending(adj, zero, normal, t, order, qs[1..])
  {
    assert forall j :: j in qs ==> j == qs[0] || j in qs[1..];
  }

  /** Popping a node that is opened now; a spreading node queues its neighbours `ext`. */
  lemma FloodPendingOpen(adj: seq<set<nat>>, zero: seq<bool>, normal: seq<bool>, t: nat,
                         order: seq<nat>, qs: seq<nat>, ext: seq<nat>)
    requires |adj| == |zero| == |normal| && t < |adj|
    requires FloodPending(adj, zero, normal, t, order, qs) && qs != []
    requires qs[0] !in order && qs[0] < |normal| && normal[qs[0]]
    requires zero[qs[0]] ==> forall j :: j in ext <==> j in adj[qs[0]]
    requires !zero[qs[0]] ==> ext == []
    ensures FloodPending(adj, zero, normal, t, order + [qs[0]], qs[1..] + ext)
  {
    var o := order + [qs[0]];
    var q := qs[1..] + ext;
    assert forall j :: j in qs ==> j == qs[0] || j in qs[1..];
    forall k | 0 <= k < |o|
      ensures o[k] in adj[t] || exists m :: 0 <= m < k && zero[o[m]] && o[k] in adj[o[m]]
    {
      if k < |order| {
        assert o[k] == order[k];
        if o[k] !in adj[t] {
          var m :| 0 <= m < k && zero[order[m]] && order[k] in adj[order[m]];
          assert o[m] == order[m];
        }
      } else if o[k] !in adj[t] {
        var m :| 0 <= m < |order| && zero[order[m]] && qs[0] in adj[order[m]];
        assert o[m] == order[m];
      }
    }
    forall k | 0 <= k < |q|
      ensures q[k] in adj[t] || exists m :: 0 <= m < |o| && zero[o[m]] && q[k] in adj[o[m]]
    {
      if k < |qs| - 1 {
        assert q[k] == qs[k + 1];
        if q[k] !in adj[t] {
          var m :| 0 <= m < |order| && zero[order[m]] && qs[k + 1] in adj[order[m]];
          assert o[m] == order[m];
        }
      } else {
        assert q[k] in ext;
        assert o[|order|] == qs[0];
      }
    }
    forall m, j | 0 <= m < |o| && zero[o[m]] && j in adj[o[m]] && j < |normal| && normal[j]
      ensures j in o || j in q
    {
      if m < |order| {
        assert o[m] == order[m];
      } else {
        assert j in ext;
      }
    }
  }

  lemma FloodPendingDone(adj: seq<set<nat>>, zero: seq<bool>, normal: seq<bool>, t: nat, order: seq<nat>)
    requires |adj| == |zero| == |normal| && t < |adj|
    requires FloodPending(adj, zero, normal, t, order, [])
    ensures FloodOf(adj, zero, normal, t, order)
  {
  }

  /** Appends the in-range positions of `nbrs` to `queue`, in order, as the flood's push loop does. */
  method PushInRange(rows: nat, cols: nat, queue: seq<(nat, nat)>, nbrs: seq<Pos>) returns (q: seq<(nat, nat)>)
    ensures q == queue + InRangeOf(rows, cols, nbrs)
  {
    q := queue;
    for k := 0 to |nbrs|
      invariant q == queue + InRangeOf(rows, cols, nbrs[..k])
    {
      assert nbrs[..k + 1][..k] == nbrs[..k];
      var p := nbrs[k];
      if InRange(rows, cols, p) {
        q := q + [(p.0 as nat, p.1 as nat)];
      }
    }
    assert nbrs[..|nbrs|] == nbrs;
  }

  /** Flat indices of a sequence of in-range positions. */
  function Flats(rows: nat, cols: nat, ps: seq<(nat, nat)>): (r: seq<nat>)
    requires forall k :: 0 <= k < |ps| ==> ps[k].0 < rows && ps[k].1 < cols
    ensures |r| == |ps|
    ensures forall k :: 0 <= k < |ps| ==> r[k] == Idx(rows, cols, ps[k].0, ps[k].1)
  {
    seq(|ps|, k requires 0 <= k < |ps| => Idx(rows, cols, ps[k].0, ps[k].1))
  }

  lemma FlatsAppend(rows: nat, cols: nat, a: seq<(nat, nat)>, b: seq<(nat, nat)>)
    requires forall k :: 0 <= k < |a| ==> a[k].0 < rows && a[k].1 < cols
    requires forall k :: 0 <= k < |b| ==> b[k].0 < rows && b[k].1 < cols
    ensures forall k :: 0 <= k < |a + b| ==> (a + b)[k].0 < rows && (a + b)[k].1 < cols
    ensures Flats(rows, cols, a + b) == Flats(rows, cols, a) + Flats(rows, cols, b)
  {
  }

  lemma InRangeOfBounds(rows: nat, cols: nat, nbrs: seq<Pos>)
    ensures var r := InRangeOf(rows, cols, nbrs);
            forall k :: 0 <= k < |r| ==> r[k].0 < rows && r[k].1 < cols
  {
    var r := InRangeOf(rows, cols, nbrs);
    forall k | 0 <= k < |r| ensures r[k].0 < rows && r[k].1 < cols {
      assert r[k] in r;
    }
  }

  lemma ExplodedStep(b0: seq<Block>, order: seq<nat>, i: nat)
    requires i < |b0|
    ensures Exploded(b0, order + [i]) <==> Exploded(b0, order) || b0[i].hasMine
  {
    if Exploded(b0, order) {
      var k :| 0 <= k < |order| && order[k] < |b0| && b0[order[k]].hasMine;
      assert (order + [i])[k] == order[k];
    }
    if b0[i].hasMine {
      assert (order + [i])[|order|] == i;
    }
    if Exploded(b0, order + [i]) {
      var k :| 0 <= k < |order| + 1 && (order + [i])[k] < |b0| && b0[(order + [i])[k]].hasMine;
      if k < |order| {
        assert (order + [i])[k] == order[k];
      }
    }
  }

  lemma FlatsOfNeighbours(rows: nat, cols: nat, nbrs: seq<Pos>)
    ensures forall j :: j in Flats(rows, cols, InRangeOf(rows, cols, nbrs)) <==> j in IdxSet(rows, cols, nbrs)
  {
    var ps := InRangeOf(rows, cols, nbrs);
    var fs := Flats(rows, cols, ps);
    forall j ensures j in fs <==> j in IdxSet(rows, cols, nbrs) {
      if j in fs {
        var k :| 0 <= k < |fs| && fs[k] == j;
        assert ps[k] in ps;
      }
      if j in IdxSet(rows, cols, nbrs) {
        var q :| q in ps && q.0 < rows && q.1 < cols && j == Idx(rows, cols, q.0, q.1);
        var k :| 0 <= k < |ps| && ps[k] == q;
        assert fs[k] == j;
      }
    }
  }

  /** Memo-filling keeps an opened-blocks relation. */
  lemma OpenedMemo(rows: nat, cols: nat, b0: seq<Block>, b: seq<Block>, order: seq<nat>, i: nat)
    requires |b0| == rows * cols && Opened(rows, cols, b0, b, order) && i < |b|
    requires CacheSound(rows, cols, b)
    ensures Opened(rows, cols, b0, Memo(rows, cols, b, i), order)
  {
    MemoSound(rows, cols, b, i);
  }

  lemma NumberAtSame(rows: nat, cols: nat, a: seq<Block>, b: seq<Block>, i: nat)
    requires |a| == rows * cols && SameMines(a, b) && i < |a|
    ensures NumberAt(rows, cols, a, i) == NumberAt(rows, cols, b, i)
  {
    MinesAroundSameMines(rows, cols, a, b, SurroundingBlocks(i / cols, i % cols));
  }

  /** Opening a Normal block moves one block from the Normal count to the Open count. */
  lemma OpenStatusCounts(b: seq<Block>, i: nat)
    requires i < |b| && b[i].status == BlockStatus.Normal
    ensures var b' := b[i := b[i].(status := BlockStatus.Open)];
            && CountStatus(b', BlockStatus.Open) == CountStatus(b, BlockStatus.Open) + 1
            && CountStatus(b', BlockStatus.Normal) == CountStatus(b, BlockStatus.Normal) - 1
            && CountStatus(b', BlockStatus.MarkedMine) == CountStatus(b, BlockStatus.MarkedMine)
            && CountStatus(b', BlockStatus.MarkedQuestionable) == CountStatus(b, BlockStatus.MarkedQuestionable)
            && SameMines(b, b')
  {
    var b' := b[i := b[i].(status := BlockStatus.Open)];
    CountStatusUpdate(b, i, b'[i], BlockStatus.Open);
    CountStatusUpdate(b, i, b'[i], BlockStatus.Normal);
    CountStatusUpdate(b, i, b'[i], BlockStatus.MarkedMine);
    CountStatusUpdate(b, i, b'[i], BlockStatus.MarkedQuestionable);
  }

  /** Opening one more Normal block extends the relation. */
  lemma OpenedStep(rows: nat, cols: nat, b0: seq<Block>, b: seq<Block>, order: seq<nat>, i: nat)
    requires |b0| == rows * cols && Opened(rows, cols, b0, b, order) && i < |b|
    ensures Opened(rows, cols, b0, b[i := b[i].(status := BlockStatus.Open)], order + [i])
  {
  }

  /** `b1` is `b0` with exactly the blocks of `order` opened; empty memos may have been filled. */
  ghost predicate Opened(rows: nat, cols: nat, b0: seq<Block>, b1: seq<Block>, order: seq<nat>)
    requires |b0| == rows * cols
  {
    && |b1| == |b0|
    && forall i :: 0 <= i < |b0| ==>
         && b1[i].hasMine == b0[i].hasMine
         && b1[i].status == (if i in order then BlockStatus.Open else b0[i].status)
         && (b1[i].cachedNumber == b0[i].cachedNumber || b0[i].cachedNumber.None?)
  }

  ghost predicate Exploded(b0: seq<Block>, order: seq<nat>) {
    exists k :: 0 <= k < |order| && order[k] < |b0| && b0[order[k]].hasMine
  }

  /** The chord rule: the block's number equals its count of MarkedMine neighbours. */
  ghost predicate ChordMatches(rows: nat, cols: nat, blocks: seq<Block>, t: nat)
    requires |blocks| == rows * cols && t < |blocks|
  {
    NumberAt(rows, cols, blocks, t) == Some(MarkedAround(rows, cols, blocks, SurroundingBlocks(t / cols, t % cols)))
  }

  /** After a block is opened: a Going board whose unopened count reached `count` is won
      (its remaining blocks auto-marked, each mark counted), otherwise it dies when a mine
      was opened; the unopened count is kept. */
  ghost predicate SettledBy(count: nat, now: int, exploded: bool, s: State, s1: State) {
    && s1.restCount == s.restCount
    && if s.status.Going? && s.restCount == count then
         && s1.blocks == MarkRemaining(s.blocks)
         && s1.markCount == s.markCount + CountStatus(s.blocks, BlockStatus.Normal)
                            + CountStatus(s.blocks, BlockStatus.MarkedQuestionable)
         && s1.status == BoardStatus.Finished(s.status.start, now)
       else
         && s1.blocks == s.blocks
         && s1.markCount == s.markCount
         && s1.status == (if s.status.Going? && exploded then BoardStatus.Died(s.status.start, now) else s.status)
  }

  /** The whole effect of a chord on block `t` at time `now`. */
  ghost predicate BlastOutcome(rows: nat, cols: nat, count: nat, t: nat, now: int, s0: State, s1: State)
    requires |s0.blocks| == rows * cols && t < |s0.blocks|
  {
    if IsTerminal(s0.status) || s0.blocks[t].status != BlockStatus.Open then s1 == s0
    else if !ChordMatches(rows, cols, s0.blocks, t) then s1 == s0.(blocks := Memo(rows, cols, s0.blocks, t))
    else exists order, mid :: FloodSettled(rows, cols, count, t, now, s0, order, mid, s1)
  }

  /** The chord's flood from `t` opened the blocks `order` of `s0`, giving blocks `mid`, and
      the board was then settled into `s1`. */
  ghost predicate FloodSettled(rows: nat, cols: nat, count: nat, t: nat, now: int, s0: State,
                               order: seq<nat>, mid: seq<Block>, s1: State)
    requires |s0.blocks| == rows * cols
  {
    && FloodFrom(rows, cols, s0.blocks, t, order)
    && Opened(rows, cols, s0.blocks, mid, order)
    && SettledBy(count, now, Exploded(s0.blocks, order), State(mid, s0.restCount - |order|, s0.markCount, s0.status), s1)
  }

  /** The whole effect of a click on block `t` of a started board at time `now`. Only a
      Going board and a Normal or MarkedQuestionable block react. A mine is opened and the
      game is lost, the unopened count left as it was. A safe block has its number memoised,
      is opened and counted off, and the board is settled; when its number is 0 a chord on it
      follows. */
  ghost predicate OpenOutcome(rows: nat, cols: nat, count: nat, t: nat, now: int, s0: State, s1: State)
    requires |s0.blocks| == rows * cols && t < |s0.blocks|
  {
    var b := s0.blocks;
    if !s0.status.Going? || (b[t].status != BlockStatus.Normal && b[t].status != BlockStatus.MarkedQuestionable) then
      s1 == s0
    else if b[t].hasMine then
      s1 == s0.(blocks := b[t := b[t].(status := BlockStatus.Open)], status := BoardStatus.Died(s0.status.start, now))
    else
      var m := Memo(rows, cols, b, t);
      var s2 := s0.(blocks := m[t := m[t].(status := BlockStatus.Open)], restCount := s0.restCount - 1);
      exists mid :: && SettledBy(count, now, false, s2, mid)
                    && |mid.blocks| == rows * cols
                    && if NumberAt(rows, cols, b, t) == Some(0) then BlastOutcome(rows, cols, count, t, now, mid, s1)
                       else s1 == mid
  }

  /** What the first click does before opening: the blocks are wiped and `count` mines are
      placed from the draws, never under the clicked block `t`; the counters are kept and the
      game is Going from `now`. */
  ghost predicate StartedFrom(rows: nat, cols: nat, count: nat, t: nat, samples: seq<nat>, now: int,
                              s0: State, s1: State)
  {
    && |s1.blocks| == rows * cols
    && (forall i :: 0 <= i < |s1.blocks| ==>
          s1.blocks[i].status == BlockStatus.Normal && s1.blocks[i].cachedNumber.None?)
    && MinesPlaced(s1.blocks, t, samples, count)
    && t < |s1.blocks| && !s1.blocks[t].hasMine
    && s1.restCount == s0.restCount && s1.markCount == s0.markCount
    && s1.status == BoardStatus.Going(now)
  }

  /** Neighbour counts relate: when every marked position of `nbrs` really holds a mine
      and the two counts agree, every mined position is marked. */
  lemma {:induction false} MarksCorrectAround(rows: nat, cols: nat, blocks: seq<Block>, nbrs: seq<Pos>)
    requires |blocks| == rows * cols
    requires forall p :: p in nbrs && InRange(rows, cols, p)
               && blocks[Idx(rows, cols, p.0, p.1)].status == BlockStatus.MarkedMine
               ==> blocks[Idx(rows, cols, p.0, p.1)].hasMine
    ensures MarkedAround(rows, cols, blocks, nbrs) <= MinesAround(rows, cols, blocks, nbrs)
    ensures MarkedAround(rows, cols, blocks, nbrs) == MinesAround(rows, cols, blocks, nbrs) ==>
              forall p :: p in nbrs && InRange(rows, cols, p) && blocks[Idx(rows, cols, p.0, p.1)].hasMine
                ==> blocks[Idx(rows, cols, p.0, p.1)].status == BlockStatus.MarkedMine
  {
    if nbrs != [] {
      MarksCorrectAround(rows, cols, blocks, nbrs[..|nbrs| - 1]);
      assert forall p :: p in nbrs ==> p in nbrs[..|nbrs| - 1] || p == nbrs[|nbrs| - 1];
    }
  }

  /** A zero count means no in-range position of `nbrs` holds a mine. */
  lemma {:induction false} NoMinesAround(rows: nat, cols: nat, blocks: seq<Block>, nbrs: seq<Pos>)
    requires |blocks| == rows * cols && MinesAround(rows, cols, blocks, nbrs) == 0
    ensures forall p :: p in nbrs && InRange(rows, cols, p) ==> !blocks[Idx(rows, cols, p.0, p.1)].hasMine
  {
    if nbrs != [] {
      NoMinesAround(rows, cols, blocks, nbrs[..|nbrs| - 1]);
      assert forall p :: p in nbrs ==> p in nbrs[..|nbrs| - 1] || p == nbrs[|nbrs| - 1];
    }
  }

  lemma NoMinesAt(rows: nat, cols: nat, blocks: seq<Block>, nbrs: seq<Pos>, j: nat)
    requires |blocks| == rows * cols && MinesAround(rows, cols, blocks, nbrs) == 0
    requires j in IdxSet(rows, cols, nbrs)
    ensures !blocks[j].hasMine
  {
    NoMinesAround(rows, cols, blocks, nbrs);
    IdxSetMembers(rows, cols, nbrs, j);
  }

  lemma MarkedAt(rows: nat, cols: nat, blocks: seq<Block>, nbrs: seq<Pos>, j: nat)
    requires |blocks| == rows * cols
    requires MarkedAround(rows, cols, blocks, nbrs) == MinesAround(rows, cols, blocks, nbrs)
    requires forall j :: j in IdxSet(rows, cols, nbrs) && blocks[j].status == BlockStatus.MarkedMine ==> blocks[j].hasMine
    requires j in IdxSet(rows, cols, nbrs) && blocks[j].hasMine
    ensures blocks[j].status == BlockStatus.MarkedMine
  {
    forall p | p in nbrs && InRange(rows, cols, p) && blocks[Idx(rows, cols, p.0, p.1)].status == BlockStatus.MarkedMine
      ensures blocks[Idx(rows, cols, p.0, p.1)].hasMine
    {
      IdxSetMembers(rows, cols, nbrs, Idx(rows, cols, p.0, p.1));
    }
    MarksCorrectAround(rows, cols, blocks, nbrs);
    IdxSetMembers(rows, cols, nbrs, j);
  }

  /** Every neighbour of a block whose number is 0 is free of mines. */
  lemma NeighbourOfZeroIsSafe(rows: nat, cols: nat, b: seq<Block>, i: nat, j: nat)
    requires |b| == rows * cols && i < |b| && NumberAt(rows, cols, b, i) == Some(0)
    requires j in NbrSet(rows, cols, i)
    ensures !b[j].hasMine
  {
    NoMinesAt(rows, cols, b, SurroundingBlocks(i / cols, i % cols), j);
  }

  /** Under the chord rule with correct marks, every mined neighbour is marked. */
  lemma MinedNeighbourIsMarked(rows: nat, cols: nat, b: seq<Block>, t: nat, j: nat)
    requires |b| == rows * cols && t < |b| && ChordMatches(rows, cols, b, t)
    requires forall j :: j in NbrSet(rows, cols, t) && b[j].status == BlockStatus.MarkedMine ==> b[j].hasMine
    requires j in NbrSet(rows, cols, t) && b[j].hasMine
    ensures b[j].status == BlockStatus.MarkedMine
  {
    MarkedAt(rows, cols, b, SurroundingBlocks(t / cols, t % cols), j);
  }

  /** The chord is safe when the player's marks are right: if every MarkedMine neighbour of
      `t` holds a mine and the chord rule fires, the flood opens no mine. */
  lemma ChordWithCorrectMarksIsSafe(rows: nat, cols: nat, b0: seq<Block>, t: nat, order: seq<nat>)
    requires FloodFrom(rows, cols, b0, t, order) && ChordMatches(rows, cols, b0, t)
    requires forall j :: j in NbrSet(rows, cols, t) && b0[j].status == BlockStatus.MarkedMine ==> b0[j].hasMine
    ensures !Exploded(b0, order)
  {
    var adj, z, nm := Adjacency(rows, cols), Zeros(rows, cols, b0), Normals(b0);
    forall k | 0 <= k < |order|
      ensures !b0[order[k]].hasMine
    {
      var j := order[k];
      assert nm[j];
      if j in adj[t] {
        if b0[j].hasMine {
          MinedNeighbourIsMarked(rows, cols, b0, t, j);
        }
      } else {
        var m :| 0 <= m < k && z[order[m]] && j in adj[order[m]];
        NeighbourOfZeroIsSafe(rows, cols, b0, order[m], j);
      }
    }
  }

  lemma {:induction false} NoMarksAround(rows: nat, cols: nat, blocks: seq<Block>, nbrs: seq<Pos>)
    requires |blocks| == rows * cols
    requires forall i :: 0 <= i < |blocks| ==> blocks[i].status != BlockStatus.MarkedMine
    ensures MarkedAround(rows, cols, blocks, nbrs) == 0
  {
    if nbrs != [] {
      NoMarksAround(rows, cols, blocks, nbrs[..|nbrs| - 1]);
    }
  }

  /** A chord whose marks around the block are all right never loses the game. */
  lemma CorrectChordNeverDies(rows: nat, cols: nat, count: nat, t: nat, now: int, s0: State, s1: State)
    requires |s0.blocks| == rows * cols && t < |s0.blocks| && s0.status.Going?
    requires s0.blocks[t].status == BlockStatus.Open && ChordMatches(rows, cols, s0.blocks, t)
    requires forall j :: j in NbrSet(rows, cols, t) && s0.blocks[j].status == BlockStatus.MarkedMine
               ==> s0.blocks[j].hasMine
    requires BlastOutcome(rows, cols, count, t, now, s0, s1)
    ensures s1.status.Going? || s1.status.Finished?
  {
    var c := s0.blocks;
    var order, flooded :| FloodSettled(rows, cols, count, t, now, s0, order, flooded, s1);
    ChordWithCorrectMarksIsSafe(rows, cols, c, t, order);
  }

  /** A chord on a block with number 0 and no marks anywhere on the board fires and opens
      no mine, so it never loses the game. */
  lemma UnmarkedChordIsSafe(rows: nat, cols: nat, count: nat, t: nat, now: int, s0: State, s1: State)
    requires |s0.blocks| == rows * cols && t < |s0.blocks| && s0.status.Going?
    requires s0.blocks[t].status == BlockStatus.Open && NumberAt(rows, cols, s0.blocks, t) == Some(0)
    requires forall i :: 0 <= i < |s0.blocks| ==> s0.blocks[i].status != BlockStatus.MarkedMine
    requires BlastOutcome(rows, cols, count, t, now, s0, s1)
    ensures s1.status.Going? || s1.status.Finished?
  {
    NoMarksAround(rows, cols, s0.blocks, SurroundingBlocks(t / cols, t % cols));
    assert ChordMatches(rows, cols, s0.blocks, t);
    assert forall j :: j in NbrSet(rows, cols, t) ==> s0.blocks[j].status != BlockStatus.MarkedMine;
    CorrectChordNeverDies(rows, cols, count, t, now, s0, s1);
  }

  /** The first click of a game never loses it: the clicked block holds no mine, and when
      its number is 0 the chord that follows meets no marks, so the flood opens no mine. */
  lemma FirstOpenNeverDies(rows: nat, cols: nat, count: nat, t: nat, now: int, s0: State, s1: State)
    requires |s0.blocks| == rows * cols && t < |s0.blocks| && s0.status.Going?
    requires forall i :: 0 <= i < |s0.blocks| ==> s0.blocks[i].status == BlockStatus.Normal
    requires !s0.blocks[t].hasMine
    requires OpenOutcome(rows, cols, count, t, now, s0, s1)
    ensures s1.status.Going? || s1.status.Finished?
  {
    var b := s0.blocks;
    var m := Memo(rows, cols, b, t);
    var s2 := s0.(blocks := m[t := m[t].(status := BlockStatus.Open)], restCount := s0.restCount - 1);
    var mid :| && SettledBy(count, now, false, s2, mid)
               && |mid.blocks| == rows * cols
               && if NumberAt(rows, cols, b, t) == Some(0) then BlastOutcome(rows, cols, count, t, now, mid, s1)
                  else s1 == mid;
    if NumberAt(rows, cols, b, t) == Some(0) && !IsTerminal(mid.status) {
      assert mid.blocks == s2.blocks;
      NumberAtSame(rows, cols, b, mid.blocks, t);
      UnmarkedChordIsSafe(rows, cols, count, t, now, mid, s1);
    }
  }

  // ---------------------------------------------------------------------------
  // Consistency of a board state
  // ---------------------------------------------------------------------------

  /** The consistency the engine keeps between its counters, its status and its blocks:
      `markCount` counts the MarkedMine blocks plus the `lost` marks wiped at the start, a
      Ready board has nothing open, a started board holds `count` mines, `restCount` counts
      the unopened blocks (one more after a death by opening a mine), and a won board has
      `count` unopened blocks, all marked. */
  ghost predicate ValidState(rows: nat, cols: nat, count: nat, lost: nat, s: State) {
    && |s.blocks| == rows * cols
    && CacheSound(rows, cols, s.blocks)
    && s.markCount == CountStatus(s.blocks, BlockStatus.MarkedMine) + lost
    && (s.status.Ready? ==> CountStatus(s.blocks, BlockStatus.Open) == 0)
    && (!s.status.Ready? ==> |MineSet(s.blocks)| == count)
    && (!s.status.Died? ==> s.restCount + CountStatus(s.blocks, BlockStatus.Open) == |s.blocks|)
    && (s.status.Died? ==> |s.blocks| <= s.restCount + CountStatus(s.blocks, BlockStatus.Open) <= |s.blocks| + 1)
    && (s.status.Finished? ==> s.restCount == count && CountStatus(s.blocks, BlockStatus.Normal) == 0
                               && CountStatus(s.blocks, BlockStatus.MarkedQuestionable) == 0)
  }

  lemma MemoKeepsValid(rows: nat, cols: nat, count: nat, lost: nat, s: State, i: nat)
    requires ValidState(rows, cols, count, lost, s) && i < |s.blocks|
    ensures ValidState(rows, cols, count, lost, s.(blocks := Memo(rows, cols, s.blocks, i)))
  {
    MemoSound(rows, cols, s.blocks, i);
    SameMinesMineSet(s.blocks, Memo(rows, cols, s.blocks, i));
  }

  /** Opening a Normal block of a Going board and counting it off keeps the state consistent. */
  lemma OpenKeepsValid(rows: nat, cols: nat, count: nat, lost: nat, s: State, i: nat)
    requires ValidState(rows, cols, count, lost, s) && s.status.Going?
    requires i < |s.blocks|
    requires s.blocks[i].status == BlockStatus.Normal || s.blocks[i].status == BlockStatus.MarkedQuestionable
    ensures s.restCount >= 1
    ensures ValidState(rows, cols, count, lost,
                       s.(blocks := s.blocks[i := s.blocks[i].(status := BlockStatus.Open)], restCount := s.restCount - 1))
  {
    var b := s.blocks[i := s.blocks[i].(status := BlockStatus.Open)];
    CountStatusUpdate(s.blocks, i, b[i], BlockStatus.Open);
    CountStatusUpdate(s.blocks, i, b[i], BlockStatus.MarkedMine);
    CacheSoundTransfer(rows, cols, s.blocks, b);
    SameMinesMineSet(s.blocks, b);
  }

  /** Opening a mine of a Going board ends the game: the state stays consistent with the
      unopened count left as it was. */
  lemma OpenMineKeepsValid(rows: nat, cols: nat, count: nat, lost: nat, s: State, i: nat, now: int)
    requires ValidState(rows, cols, count, lost, s) && s.status.Going?
    requires i < |s.blocks|
    requires s.blocks[i].status == BlockStatus.Normal || s.blocks[i].status == BlockStatus.MarkedQuestionable
    ensures ValidState(rows, cols, count, lost,
                       s.(blocks := s.blocks[i := s.blocks[i].(status := BlockStatus.Open)],
                          status := BoardStatus.Died(s.status.start, now)))
  {
    var b := s.blocks[i := s.blocks[i].(status := BlockStatus.Open)];
    CountStatusUpdate(s.blocks, i, b[i], BlockStatus.Open);
    CountStatusUpdate(s.blocks, i, b[i], BlockStatus.MarkedMine);
    CacheSoundTransfer(rows, cols, s.blocks, b);
    SameMinesMineSet(s.blocks, b);
  }

  // ---------------------------------------------------------------------------
  // The two loops of the engine, on values
  // ---------------------------------------------------------------------------

  /** The adjacent-mine number of block (y, x) and the blocks with that number memoised:
      a mine has none; a stored number is reused; otherwise the mined neighbours are counted. */
  method MemoNumber(rows: nat, cols: nat, blocks: seq<Block>, y: nat, x: nat) returns (n: Option<nat>, b: seq<Block>)
    requires |blocks| == rows * cols && y < rows && x < cols && CacheSound(rows, cols, blocks)
    ensures n == NumberAt(rows, cols, blocks, Idx(rows, cols, y, x))
    ensures b == Memo(rows, cols, blocks, Idx(rows, cols, y, x))
  {
    var idx := Idx(rows, cols, y, x);
    MemoSound(rows, cols, blocks, idx);
    IdxDivMod(rows, cols, y, x);
    b := blocks;
    if blocks[idx].hasMine {
      return None, b;
    }
    if blocks[idx].cachedNumber.None? {
      var surr := SurroundingBlocks(y, x);
      var number := 0;
      for k := 0 to 12
        invariant number == MinesAround(rows, cols, blocks, surr[..k])
      {
        assert surr[..k + 1][..k] == surr[..k];
        var p := surr[k];
        if InRange(rows, cols, p) && blocks[Idx(rows, cols, p.0, p.1)].hasMine {
          number := number + 1;
        }
      }
      assert surr[..12] == surr;
      b := blocks[idx := blocks[idx].(cachedNumber := Some(number))];
      return Some(number), b;
    }
    return blocks[idx].cachedNumber, b;
  }

  /** What holds between pops of the flood started on the board `b0` from state `s0`: the
      state stays consistent with the same status and marks, the queued positions are on the
      board, the opened blocks `order` and the queue are a flood of `t` in progress, the
      explosion flag records whether a mine was opened, and each opened block is counted off. */
  ghost predicate FloodInv(rows: nat, cols: nat, count: nat, lost: nat, b0: seq<Block>, t: nat, s0: State,
                           s: State, queue: seq<(nat, nat)>, order: seq<nat>, exploded: bool)
  {
    && t < |b0| == rows * cols
    && ValidState(rows, cols, count, lost, s) && s.status == s0.status && s.markCount == s0.markCount
    && (forall k :: 0 <= k < |queue| ==> queue[k].0 < rows && queue[k].1 < cols)
    && FloodPending(Adjacency(rows, cols), Zeros(rows, cols, b0), Normals(b0), t, order, Flats(rows, cols, queue))
    && Opened(rows, cols, b0, s.blocks, order)
    && (exploded <==> Exploded(b0, order))
    && s.restCount == s0.restCount - |order|
    && CountStatus(s.blocks, BlockStatus.Normal) + |order| == CountStatus(b0, BlockStatus.Normal)
  }

  lemma PopBounds(rows: nat, cols: nat, queue: seq<(nat, nat)>)
    requires queue != [] && forall k :: 0 <= k < |queue| ==> queue[k].0 < rows && queue[k].1 < cols
    ensures forall k :: 0 <= k < |queue[1..]| ==> queue[1..][k].0 < rows && queue[1..][k].1 < cols
    ensures Flats(rows, cols, queue[1..]) == Flats(rows, cols, queue)[1..]
  {
    forall k | 0 <= k < |queue[1..]| ensures queue[1..][k].0 < rows && queue[1..][k].1 < cols {
      assert queue[1..][k] == queue[k + 1];
    }
  }

  /** Memoising a number during the flood keeps its invariant. */
  lemma MemoKeepsFloodInv(rows: nat, cols: nat, count: nat, lost: nat, b0: seq<Block>, t: nat, s0: State,
                          s: State, queue: seq<(nat, nat)>, order: seq<nat>, exploded: bool, i: nat)
    requires FloodInv(rows, cols, count, lost, b0, t, s0, s, queue, order, exploded) && i < |s.blocks|
    ensures FloodInv(rows, cols, count, lost, b0, t, s0, s.(blocks := Memo(rows, cols, s.blocks, i)),
                     queue, order, exploded)
  {
    MemoKeepsValid(rows, cols, count, lost, s, i);
    MemoSound(rows, cols, s.blocks, i);
    OpenedMemo(rows, cols, b0, s.blocks, order, i);
  }

  /** Dropping a popped block that is not Normal keeps the flood's invariant. */
  lemma SkipKeepsFloodInv(rows: nat, cols: nat, count: nat, lost: nat, b0: seq<Block>, t: nat, s0: State,
                          s: State, queue: seq<(nat, nat)>, order: seq<nat>, exploded: bool)
    requires FloodInv(rows, cols, count, lost, b0, t, s0, s, queue, order, exploded) && queue != []
    requires Idx(rows, cols, queue[0].0, queue[0].1) < |s.blocks|
    requires s.blocks[Idx(rows, cols, queue[0].0, queue[0].1)].status != BlockStatus.Normal
    ensures FloodInv(rows, cols, count, lost, b0, t, s0, s, queue[1..], order, exploded)
  {
    PopBounds(rows, cols, queue);
    FloodPendingSkip(Adjacency(rows, cols), Zeros(rows, cols, b0), Normals(b0), t, order, Flats(rows, cols, queue));
  }

  /** Opens the popped Normal block whose number is `m`, counts it off, and queues its
      in-range neighbours when `m` is 0 or notes the explosion when it is a mine. */
  method FloodOpen(rows: nat, cols: nat, count: nat, ghost lost: nat, ghost b0: seq<Block>, t: nat, ghost s0: State,
                   s: State, queue: seq<(nat, nat)>, ghost order: seq<nat>, exploded: bool, m: Option<nat>)
    returns (s': State, queue': seq<(nat, nat)>, ghost order': seq<nat>, exploded': bool)
    requires FloodInv(rows, cols, count, lost, b0, t, s0, s, queue, order, exploded)
    requires s0.status.Going? && queue != []
    requires s.blocks[Idx(rows, cols, queue[0].0, queue[0].1)].status == BlockStatus.Normal
    requires m == NumberAt(rows, cols, b0, Idx(rows, cols, queue[0].0, queue[0].1))
    ensures FloodInv(rows, cols, count, lost, b0, t, s0, s', queue', order', exploded')
    ensures CountStatus(s'.blocks, BlockStatus.Normal) < CountStatus(s.blocks, BlockStatus.Normal)
  {
    ghost var adj, zero, normal := Adjacency(rows, cols), Zeros(rows, cols, b0), Normals(b0);
    var p := queue[0];
    ghost var qs := Flats(rows, cols, queue);
    PopBounds(rows, cols, queue);
    queue' := queue[1..];
    var qi := Idx(rows, cols, p.0, p.1);
    var b := s.blocks;
    OpenKeepsValid(rows, cols, count, lost, s, qi);
    OpenStatusCounts(b, qi);
    OpenedStep(rows, cols, b0, b, order, qi);
    s' := s.(blocks := b[qi := b[qi].(status := BlockStatus.Open)], restCount := s.restCount - 1);
    exploded' := exploded;
    if m == Some(0) {
      IdxDivMod(rows, cols, p.0, p.1);
      var nsurr := SurroundingBlocks(p.0, p.1);
      ghost var q1 := queue';
      queue' := PushInRange(rows, cols, queue', nsurr);
      FlatsOfNeighbours(rows, cols, nsurr);
      InRangeOfBounds(rows, cols, nsurr);
      FlatsAppend(rows, cols, q1, InRangeOf(rows, cols, nsurr));
      FloodPendingOpen(adj, zero, normal, t, order, qs, Flats(rows, cols, InRangeOf(rows, cols, nsurr)));
    } else {
      assert qs[1..] + [] == qs[1..];
      FloodPendingOpen(adj, zero, normal, t, order, qs, []);
      if m == None {
        exploded' := true;
      }
    }
    NumberAtRange(rows, cols, b0, qi);
    ExplodedStep(b0, order, qi);
    order' := order + [qi];
  }

  /** One pop of the flood: memoise the popped block's number, then open it if it is Normal
      and drop it otherwise. */
  method FloodStep(rows: nat, cols: nat, count: nat, ghost lost: nat, ghost b0: seq<Block>, t: nat, ghost s0: State,
                   s: State, queue: seq<(nat, nat)>, ghost order: seq<nat>, exploded: bool)
    returns (s': State, queue': seq<(nat, nat)>, ghost order': seq<nat>, exploded': bool)
    requires FloodInv(rows, cols, count, lost, b0, t, s0, s, queue, order, exploded)
    requires s0.status.Going? && queue != []
    ensures FloodInv(rows, cols, count, lost, b0, t, s0, s', queue', order', exploded')
    ensures var n, n' := CountStatus(s.blocks, BlockStatus.Normal), CountStatus(s'.blocks, BlockStatus.Normal);
            n' < n || (n' == n && |queue'| < |queue|)
  {
    var p := queue[0];
    var qi := Idx(rows, cols, p.0, p.1);
    var m, b := MemoNumber(rows, cols, s.blocks, p.0, p.1);
    MemoKeepsFloodInv(rows, cols, count, lost, b0, t, s0, s, queue, order, exploded, qi);
    MemoSound(rows, cols, s.blocks, qi);
    NumberAtSame(rows, cols, s.blocks, b0, qi);
    var sm := s.(blocks := b);
    if b[qi].status != BlockStatus.Normal {
      SkipKeepsFloodInv(rows, cols, count, lost, b0, t, s0, sm, queue, order, exploded);
      return sm, queue[1..], order, exploded;
    }
    s', queue', order', exploded' := FloodOpen(rows, cols, count, lost, b0, t, s0, sm, queue, order, exploded, m);
  }

  /** The flood of a chord on block `t` of a Going board: pops the queue until it is empty.
      It opens exactly the flood of `t` over the board `b0` it started from, counting each
      opened block off, and reports whether a mine was among them. */
  method Flood(rows: nat, cols: nat, count: nat, ghost lost: nat, ghost b0: seq<Block>, s: State, t: nat,
               queue0: seq<(nat, nat)>)
    returns (s': State, exploded: bool, ghost order: seq<nat>)
    requires ValidState(rows, cols, count, lost, s) && s.status.Going? && t < |b0| == rows * cols
    requires Opened(rows, cols, b0, s.blocks, [])
    requires CountStatus(s.blocks, BlockStatus.Normal) == CountStatus(b0, BlockStatus.Normal)
    requires forall k :: 0 <= k < |queue0| ==> queue0[k].0 < rows && queue0[k].1 < cols
    requires forall j :: j in Flats(rows, cols, queue0) <==> j in NbrSet(rows, cols, t)
    ensures ValidState(rows, cols, count, lost, s')
    ensures s'.status == s.status && s'.markCount == s.markCount
    ensures s'.restCount == s.restCount - |order|
    ensures FloodFrom(rows, cols, b0, t, order)
    ensures Opened(rows, cols, b0, s'.blocks, order)
    ensures exploded <==> Exploded(b0, order)
  {
    FloodPendingStart(Adjacency(rows, cols), Zeros(rows, cols, b0), Normals(b0), t, Flats(rows, cols, queue0));
    var queue := queue0;
    s' := s;
    exploded := false;
    order := [];
    while queue != []
      invariant FloodInv(rows, cols, count, lost, b0, t, s, s', queue, order, exploded)
      decreases CountStatus(s'.blocks, BlockStatus.Normal), |queue|
    {
      s', queue, order, exploded := FloodStep(rows, cols, count, lost, b0, t, s, s', queue, order, exploded);
    }
    FloodPendingDone(Adjacency(rows, cols), Zeros(rows, cols, b0), Normals(b0), t, order);
  }

  /** The number of MarkedMine blocks among the in-range positions of `nbrs`. */
  method CountMarked(rows: nat, cols: nat, blocks: seq<Block>, nbrs: seq<Pos>) returns (n: nat)
    requires |blocks| == rows * cols
    ensures n == MarkedAround(rows, cols, blocks, nbrs)
  {
    n := 0;
    for k := 0 to |nbrs|
      invariant n == MarkedAround(rows, cols, blocks, nbrs[..k])
    {
      assert nbrs[..k + 1][..k] == nbrs[..k];
      var p := nbrs[k];
      if InRange(rows, cols, p) && blocks[Idx(rows, cols, p.0, p.1)].status == BlockStatus.MarkedMine {
        n := n + 1;
      }
    }
    assert nbrs[..|nbrs|] == nbrs;
  }

  /** The end-of-game auto-marking: every Normal or MarkedQuestionable block becomes
      MarkedMine and each such change adds one to the mark counter. */
  method FinishMarks(blocks: seq<Block>, markCount: nat) returns (b: seq<Block>, marks: nat)
    ensures b == MarkRemaining(blocks)
    ensures marks == markCount + CountStatus(blocks, BlockStatus.Normal)
                     + CountStatus(blocks, BlockStatus.MarkedQuestionable)
  {
    b, marks := blocks, markCount;
    for i := 0 to |blocks|
      invariant |b| == |blocks|
      invariant forall j :: 0 <= j < |blocks| ==> b[j] == if j < i then MarkBlock(blocks[j]) else blocks[j]
      invariant marks == markCount + CountStatus(blocks[..i], BlockStatus.Normal)
                         + CountStatus(blocks[..i], BlockStatus.MarkedQuestionable)
    {
      assert blocks[..i + 1][..i] == blocks[..i];
      match b[i].status {
        case Normal =>
          b := b[i := b[i].(status := BlockStatus.MarkedMine)];
          marks := marks + 1;
        case MarkedQuestionable =>
          b := b[i := b[i].(status := BlockStatus.MarkedMine)];
          marks := marks + 1;
        case _ =>
      }
    }
    assert blocks[..|blocks|] == blocks;
  }

  /** The end of a chord: a Going board whose unopened count reached `count` is won, with the
      remaining blocks auto-marked; otherwise it dies if the flood opened a mine. */
  method Settle(rows: nat, cols: nat, count: nat, ghost lost: nat, s: State, exploded: bool, now: int)
    returns (s': State)
    requires ValidState(rows, cols, count, lost, s)
    ensures ValidState(rows, cols, count, lost, s')
    ensures SettledBy(count, now, exploded, s, s')
  {
    s' := s;
    if s.status.Going? {
      if s.restCount == count {
        var b, marks := FinishMarks(s.blocks, s.markCount);
        MarkRemainingCounts(s.blocks);
        SameMinesMineSet(s.blocks, b);
        CacheSoundTransfer(rows, cols, s.blocks, b);
        s' := State(b, s.restCount, marks, BoardStatus.Finished(s.status.start, now));
      } else if exploded {
        s' := s.(status := BoardStatus.Died(s.status.start, now));
      }
    }
  }

  /** The chord on block (y, x) of state `s`: when the game is on, the block is open and its
      number equals its count of marked neighbours, flood-open from it and settle the game. */
  method Blast(rows: nat, cols: nat, count: nat, ghost lost: nat, s: State, y: nat, x: nat, now: int)
    returns (s': State)
    requires ValidState(rows, cols, count, lost, s) && y < rows && x < cols
    ensures ValidState(rows, cols, count, lost, s')
    ensures BlastOutcome(rows, cols, count, Idx(rows, cols, y, x), now, s, s')
  {
    var t := Idx(rows, cols, y, x);
    s' := s;
    if s.status.Finished? || s.status.Died? {
      return;
    }
    if s.blocks[t].status != BlockStatus.Open {
      return;
    }
    CountStatusPositive(s.blocks, t, BlockStatus.Open);
    IdxDivMod(rows, cols, y, x);
    var surr := SurroundingBlocks(y, x);
    var markedNumber := CountMarked(rows, cols, s.blocks, surr);
    var n, b := MemoNumber(rows, cols, s.blocks, y, x);
    MemoKeepsValid(rows, cols, count, lost, s, t);
    MemoSound(rows, cols, s.blocks, t);
    s' := s.(blocks := b);
    if n != Some(markedNumber) {
      return;
    }
    var queue := PushInRange(rows, cols, [], surr);
    FlatsOfNeighbours(rows, cols, surr);
    InRangeOfBounds(rows, cols, surr);
    assert [] + InRangeOf(rows, cols, surr) == InRangeOf(rows, cols, surr);
    assert NbrSet(rows, cols, t) == IdxSet(rows, cols, surr);
    assert Opened(rows, cols, s.blocks, s'.blocks, []);
    assert CountStatus(s'.blocks, BlockStatus.Normal) == CountStatus(s.blocks, BlockStatus.Normal);
    assert s'.status.Going?;
    var exploded;
    ghost var order;
    s', exploded, order := Flood(rows, cols, count, lost, s.blocks, s', t, queue);
    ghost var mid := s'.blocks;
    s' := Settle(rows, cols, count, lost, s', exploded, now);
    assert FloodSettled(rows, cols, count, t, now, s, order, mid, s');
  }

  /** A click on block (y, x) of state `s`, after any start of the game. */
  method OpenAt(rows: nat, cols: nat, count: nat, ghost lost: nat, s: State, y: nat, x: nat, now: int)
    returns (s': State)
    requires ValidState(rows, cols, count, lost, s) && y < rows && x < cols
    ensures ValidState(rows, cols, count, lost, s')
    ensures OpenOutcome(rows, cols, count, Idx(rows, cols, y, x), now, s, s')
  {
    var t := Idx(rows, cols, y, x);
    s' := s;
    if !s.status.Going? {
      return;
    }
    if s.blocks[t].status != BlockStatus.Normal && s.blocks[t].status != BlockStatus.MarkedQuestionable {
      return;
    }
    var n, b := MemoNumber(rows, cols, s.blocks, y, x);
    NumberAtRange(rows, cols, s.blocks, t);
    if n.Some? {
      MemoKeepsValid(rows, cols, count, lost, s, t);
      MemoSound(rows, cols, s.blocks, t);
      OpenKeepsValid(rows, cols, count, lost, s.(blocks := b), t);
      s' := s.(blocks := b[t := b[t].(status := BlockStatus.Open)], restCount := s.restCount - 1);
      s' := Settle(rows, cols, count, lost, s', false, now);
      ghost var mid := s';
      if n.value == 0 {
        s' := Blast(rows, cols, count, lost, s', y, x, now);
      }
      assert SettledBy(count, now, false, s.(blocks := b[t := b[t].(status := BlockStatus.Open)],
                                              restCount := s.restCount - 1), mid);
    } else {
      OpenMineKeepsValid(rows, cols, count, lost, s, t, now);
      s' := s.(blocks := s.blocks[t := s.blocks[t].(status := BlockStatus.Open)],
               status := BoardStatus.Died(s.status.start, now));
    }
  }

  // ---------------------------------------------------------------------------
  // The board
  // ---------------------------------------------------------------------------

  class Board {
    const rows: nat
    const cols: nat
    /** The number of mines the board is set up with. */
    const count: nat
    /** Blocks not yet open, as the engine counts them. */
    var restCount: nat
    /** Marks placed by the player or by the end-of-game auto-marking. */
    var markCount: nat
    var status: BoardStatus
    /** Row-major blocks; block (y, x) sits at `cols * y + x`. */
    var blocks: seq<Block>
    /** Marks counted in `markCount` whose blocks were wiped when the game started. */
    ghost var lostMarks: nat

    function Snapshot(): State
      reads this
    {
      State(blocks, restCount, markCount, status)
    }

    /** The consistency the engine keeps between its counters, its status and its blocks. */
    ghost predicate Valid()
      reads this
    {
      ValidState(rows, cols, count, lostMarks, Snapshot())
    }

    /** A fresh Ready board of `y` rows and `x` columns with `c` mines to place. */
    constructor (y: nat, x: nat, c: nat)
      ensures Valid()
      ensures rows == y && cols == x && count == c
      ensures restCount == y * x && markCount == 0 && status == BoardStatus.Ready
      ensures blocks == seq(y * x, _ => DefaultBlock)
    {
      rows, cols, count := y, x, c;
      restCount, markCount := y * x, 0;
      status := BoardStatus.Ready;
      blocks := seq(y * x, _ => DefaultBlock);
      lostMarks := 0;
      new;
      CountStatusNone(blocks, BlockStatus.Open);
      CountStatusNone(blocks, BlockStatus.MarkedMine);
    }

    /** A board with the size and mine count of the configuration. */
    constructor FromConfig(config: Config.Config)
      ensures Valid()
      ensures rows == 10 && cols == 11 && count == 10
      ensures restCount == 110 && markCount == 0 && status == BoardStatus.Ready
      ensures blocks == seq(110, _ => DefaultBlock)
    {
      var setting := Config.BoardSettingOf(config);
      rows, cols, count := setting.y, setting.x, setting.c;
      restCount, markCount := setting.y * setting.x, 0;
      status := BoardStatus.Ready;
      blocks := seq(setting.y * setting.x, _ => DefaultBlock);
      lostMarks := 0;
      new;
      CountStatusNone(blocks, BlockStatus.Open);
      CountStatusNone(blocks, BlockStatus.MarkedMine);
    }

    /** The adjacent-mine number of block (y, x), storing it in the block's memo. */
    method BlockDisplayNumber(y: nat, x: nat) returns (n: Option<nat>)
      requires Valid() && y < rows && x < cols
      modifies this`blocks
      ensures Valid()
      ensures n == NumberAt(rows, cols, old(blocks), Idx(rows, cols, y, x))
      ensures blocks == Memo(rows, cols, old(blocks), Idx(rows, cols, y, x))
    {
      var b;
      n, b := MemoNumber(rows, cols, blocks, y, x);
      MemoKeepsValid(rows, cols, count, lostMarks, Snapshot(), Idx(rows, cols, y, x));
      blocks := b;
    }

    /** Marks every Normal or MarkedQuestionable block as a mine, counting each new mark. */
    method PrepareForFinish()
      requires Valid()
      modifies this`blocks, this`markCount
      ensures Valid()
      ensures blocks == MarkRemaining(old(blocks))
      ensures markCount == old(markCount) + CountStatus(old(blocks), BlockStatus.Normal)
                           + CountStatus(old(blocks), BlockStatus.MarkedQuestionable)
    {
      ghost var b := blocks;
      blocks, markCount := FinishMarks(blocks, markCount);
      MarkRemainingCounts(b);
      CacheSoundTransfer(rows, cols, b, blocks);
      SameMinesMineSet(b, blocks);
    }

    /** Wipes the blocks and places `count` mines at the first distinct indices the draws name,
        never on the clicked block (y, x). The mark counter keeps the wiped marks. */
    method StartGameWith(y: nat, x: nat, samples: seq<nat>)
      requires Valid() && y < rows && x < cols && status.Ready?
      requires CanStart(rows * cols, count, Idx(rows, cols, y, x), samples)
      modifies this`blocks, this`lostMarks
      ensures Valid() && lostMarks == markCount
      ensures |blocks| == rows * cols
      ensures forall i :: 0 <= i < |blocks| ==> blocks[i].status == BlockStatus.Normal && blocks[i].cachedNumber.None?
      ensures MinesPlaced(blocks, Idx(rows, cols, y, x), samples, count)
      ensures !blocks[Idx(rows, cols, y, x)].hasMine
    {
      blocks := PlaceMines(rows * cols, count, Idx(rows, cols, y, x), samples);
      lostMarks := markCount;
      CountStatusNone(blocks, BlockStatus.Open);
      CountStatusNone(blocks, BlockStatus.MarkedMine);
    }

    /** Cycles the mark on the block at flat index `cols * y + x`: Normal, MarkedMine,
        MarkedQuestionable, Normal. Open blocks and finished games are left alone. */
    method RotateBlockState(y: nat, x: nat)
      requires Valid() && cols * y + x < rows * cols
      modifies this`blocks, this`markCount
      ensures Valid()
      ensures var i, b := cols * y + x, old(blocks);
              if IsTerminal(status) || b[i].status == BlockStatus.Open then
                blocks == b && markCount == old(markCount)
              else
                && blocks == b[i := b[i].(status := Rotated(b[i].status))]
                && markCount == old(markCount) + MarkDelta(b[i].status)
    {
      var idx := cols * y + x;
      if status.Finished? || status.Died? {
        return;
      }
      ghost var b := blocks;
      match blocks[idx].status {
        case Normal =>
          blocks := blocks[idx := blocks[idx].(status := BlockStatus.MarkedMine)];
          markCount := markCount + 1;
        case MarkedMine =>
          CountStatusPositive(blocks, idx, BlockStatus.MarkedMine);
          blocks := blocks[idx := blocks[idx].(status := BlockStatus.MarkedQuestionable)];
          markCount := markCount - 1;
        case MarkedQuestionable =>
          blocks := blocks[idx := blocks[idx].(status := BlockStatus.Normal)];
        case Open =>
      }
      forall st ensures CountStatus(blocks, st) == CountStatus(b, st) - (if b[idx].status == st then 1 else 0)
                                                  + (if blocks[idx].status == st then 1 else 0) {
        CountStatusUpdate(b, idx, blocks[idx], st);
        assert b[idx := blocks[idx]] == blocks;
      }
      CacheSoundTransfer(rows, cols, b, blocks);
      SameMinesMineSet(b, blocks);
    }

    /** How block `pos` is drawn under the pressed `focus`; the query fills the block's memo. */
    method BlockDisplayKind(pos: (nat, nat), focus: Option<(nat, nat, bool)>) returns (k: BlockDisplayKind)
      requires Valid() && pos.0 < rows && pos.1 < cols
      modifies this`blocks
      ensures Valid()
      ensures blocks == Memo(rows, cols, old(blocks), Idx(rows, cols, pos.0, pos.1))
      ensures k == DisplayKindOf(status, old(blocks)[Idx(rows, cols, pos.0, pos.1)].status,
                                 NumberAt(rows, cols, old(blocks), Idx(rows, cols, pos.0, pos.1)), pos, focus)
    {
      var number := BlockDisplayNumber(pos.0, pos.1);
      var blockStatus := blocks[Idx(rows, cols, pos.0, pos.1)].status;
      k := DisplayKindOf(status, blockStatus, number, pos, focus);
    }

    /** The chord on block (y, x): when it is open and its number equals its count of marked
        neighbours, the neighbours are flooded breadth-first, spreading from every opened block
        whose number is 0; then the game is won or lost. */
    method BlastBlock(y: nat, x: nat, now: int)
      requires Valid() && y < rows && x < cols
      modifies this`blocks, this`restCount, this`markCount, this`status
      ensures Valid()
      ensures BlastOutcome(rows, cols, count, Idx(rows, cols, y, x), now, old(Snapshot()), Snapshot())
    {
      var s1 := Blast(rows, cols, count, lostMarks, Snapshot(), y, x, now);
      blocks, restCount, markCount, status := s1.blocks, s1.restCount, s1.markCount, s1.status;
    }

    /** A left click on block (y, x) at time `now`. The first click of a game places the
        mines from the draws `samples` (the marks are wiped, their count is kept) and starts
        the clock; `started` is the board the click then acts on. */
    method OpenBlock(y: nat, x: nat, samples: seq<nat>, now: int) returns (ghost started: State)
      requires Valid() && y < rows && x < cols
      requires status.Ready? ==> CanStart(rows * cols, count, Idx(rows, cols, y, x), samples)
      modifies this`blocks, this`restCount, this`markCount, this`status, this`lostMarks
      ensures Valid()
      ensures if old(status).Ready? then StartedFrom(rows, cols, count, Idx(rows, cols, y, x), samples, now,
                                                     old(Snapshot()), started)
              else started == old(Snapshot())
      ensures OpenOutcome(rows, cols, count, Idx(rows, cols, y, x), now, started, Snapshot())
      ensures old(status).Ready? ==> status.Going? || status.Finished?
    {
      ghost var wasReady := status.Ready?;
      if status.Ready? {
        StartGameWith(y, x, samples);
        status := BoardStatus.Going(now);
        CountStatusNone(blocks, BlockStatus.Open);
        PlacementSize(blocks, Idx(rows, cols, y, x), samples, count);
      }
      started := Snapshot();
      var s1 := OpenAt(rows, cols, count, lostMarks, Snapshot(), y, x, now);
      if wasReady {
        FirstOpenNeverDies(rows, cols, count, Idx(rows, cols, y, x), now, started, s1);
      }
      blocks, restCount, markCount, status := s1.blocks, s1.restCount, s1.markCount, s1.status;
    }
  }
}
