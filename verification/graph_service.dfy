/** The standalone graph: a table from each station to its outgoing connections and their
    distances, and a cheapest-path search over it (Dijkstra's algorithm with a predecessor map,
    followed by walking the predecessors back from the destination). Stations are any values
    with equality. */
module GraphServices {
  import opened Base

  /** `self.stations`: station to (neighbour to distance). */
  type Table<K(==,!new)> = map<K, map<K, real>>

  predicate IsEdge<K(==,!new)>(g: Table<K>, u: K, v: K)
  {
    u in g && v in g[u]
  }

  /** The distance of a stored connection; zero for a pair that is not connected. */
  function Weight<K(==,!new)>(g: Table<K>, u: K, v: K): real
  {
    if IsEdge(g, u, v) then g[u][v] else 0.0
  }

  ghost predicate NonNegative<K(!new)>(g: Table<K>)
  {
    forall u, v | IsEdge(g, u, v) :: g[u][v] >= 0.0
  }

  /** A non-empty sequence of stations, each connected to the next. */
  ghost predicate IsWalk<K(!new)>(g: Table<K>, p: seq<K>)
  {
    |p| > 0 && forall i | 0 <= i < |p| - 1 :: IsEdge(g, p[i], p[i + 1])
  }

  ghost predicate WalkTo<K(!new)>(g: Table<K>, source: K, v: K, p: seq<K>)
  {
    IsWalk(g, p) && p[0] == source && p[|p| - 1] == v
  }

  /** The total distance along a sequence of stations. */
  function Cost<K(==,!new)>(g: Table<K>, p: seq<K>): real
    decreases |p|
  {
    if |p| <= 1 then 0.0 else Cost(g, p[..|p| - 1]) + Weight(g, p[|p| - 2], p[|p| - 1])
  }

  lemma {:induction false} CostNonNegative<K(!new)>(g: Table<K>, p: seq<K>)
    requires NonNegative(g)
    ensures Cost(g, p) >= 0.0
    decreases |p|
  {
    if |p| > 1 {
      CostNonNegative(g, p[..|p| - 1]);
    }
  }

  lemma CostStep<K(!new)>(g: Table<K>, p: seq<K>, i: nat)
    requires 1 <= i < |p|
    ensures Cost(g, p[..i + 1]) == Cost(g, p[..i]) + Weight(g, p[i - 1], p[i])
  {
    assert p[..i + 1][..i] == p[..i];
  }

  /** With non-negative distances, a prefix of a sequence costs no more than all of it. */
  lemma {:induction false} CostPrefix<K(!new)>(g: Table<K>, p: seq<K>, j: nat)
    requires NonNegative(g) && 1 <= j <= |p|
    ensures Cost(g, p[..j]) <= Cost(g, p)
    decreases |p| - j
  {
    if j < |p| {
      CostStep(g, p, j);
      assert Weight(g, p[j - 1], p[j]) >= 0.0;
      CostPrefix(g, p, j + 1);
    } else {
      assert p[..j] == p;
    }
  }

  lemma {:induction false} CostCons<K(!new)>(g: Table<K>, c: K, q: seq<K>)
    requires |q| >= 1
    ensures Cost(g, [c] + q) == Weight(g, c, q[0]) + Cost(g, q)
    decreases |q|
  {
    if |q| > 1 {
      var n := |q| - 1;
      assert ([c] + q)[..|q|] == [c] + q[..n];
      CostCons(g, c, q[..n]);
    }
  }

  /** A walk's prefix is a walk. */
  lemma WalkPrefix<K(!new)>(g: Table<K>, p: seq<K>, j: nat)
    requires IsWalk(g, p) && 1 <= j <= |p|
    ensures IsWalk(g, p[..j])
  {
    forall i | 0 <= i < j - 1
      ensures IsEdge(g, p[..j][i], p[..j][i + 1])
    {
      assert p[..j][i] == p[i] && p[..j][i + 1] == p[i + 1];
    }
  }

  /** `best_path[::-1]`. */
  function Reverse<K>(s: seq<K>): (r: seq<K>)
    ensures |r| == |s|
    ensures forall i | 0 <= i < |s| :: r[i] == s[|s| - 1 - i]
    decreases |s|
  {
    if s == [] then [] else Reverse(s[1..]) + [s[0]]
  }

  lemma ReverseAppend<K>(s: seq<K>, c: K)
    ensures Reverse(s + [c]) == [c] + Reverse(s)
  {
    assert |Reverse(s + [c])| == |[c] + Reverse(s)|;
    forall i | 0 <= i < |s| + 1
      ensures Reverse(s + [c])[i] == ([c] + Reverse(s))[i]
    {
      if i > 0 {
        assert (s + [c])[|s| - i] == s[|s| - i];
      }
    }
  }

  /** The scan for the unvisited station with the smallest tentative distance: the first such
      station met in the scan, or none when no unvisited station has been reached. */
  method SelectMin<K(==,!new)>(remaining: set<K>, dist: map<K, real>) returns (min: Option<K>)
    ensures min.None? <==> forall s | s in remaining :: s !in dist
    ensures min.Some? ==> min.value in remaining && min.value in dist
    ensures min.Some? ==> forall s | s in remaining && s in dist :: dist[min.value] <= dist[s]
  {
    min := None;
    var todo := remaining;
    while todo != {}
      invariant todo <= remaining
      invariant min.None? <==> forall s | s in remaining - todo :: s !in dist
      invariant min.Some? ==> min.value in remaining && min.value in dist
      invariant min.Some? ==> forall s | s in remaining - todo && s in dist :: dist[min.value] <= dist[s]
      decreases |todo|
    {
      var s :| s in todo;
      if s in dist {
        if min.None? {
          min := Some(s);
        } else if dist[s] < dist[min.value] {
          min := Some(s);
        }
      }
      todo := todo - {s};
    }
  }

  /** Whether the connection to `x` improves on what is known of it. */
  predicate Improves<K(==,!new)>(dist: map<K, real>, cw: real, out: map<K, real>, x: K)
    requires x in out
  {
    x !in dist || cw + out[x] < dist[x]
  }

  /** The maps after relaxing the connections in `done` of station `m`, reached at `cw`: an
      improved neighbour gets distance `cw` plus the connection's and predecessor `m`; every
      other entry stays. */
  ghost predicate PartlyRelaxed<K(!new)>(dist: map<K, real>, pred: map<K, K>, m: K, cw: real, out: map<K, real>,
                                       done: set<K>, dist': map<K, real>, pred': map<K, K>)
  {
    && done <= out.Keys
    && dist'.Keys == dist.Keys + done
    && (forall x | x in done ::
          if Improves(dist, cw, out, x) then dist'[x] == cw + out[x] && x in pred' && pred'[x] == m
          else dist'[x] == dist[x] && (x in pred' <==> x in pred) && (x in pred ==> pred'[x] == pred[x]))
    && (forall x | x in dist && x !in done :: dist'[x] == dist[x])
    && (forall x | x in pred && x !in done :: x in pred' && pred'[x] == pred[x])
    && (forall x | x in pred' :: x in pred || x in done)
  }

  ghost predicate RelaxedBy<K(!new)>(dist: map<K, real>, pred: map<K, K>, m: K, cw: real, out: map<K, real>,
                                   dist': map<K, real>, pred': map<K, K>)
  {
    PartlyRelaxed(dist, pred, m, cw, out, out.Keys, dist', pred')
  }

  /** Relaxing one more connection that improves: each neighbour is looked at once, so it is
      compared with what was known before the loop. */
  lemma RelaxImproves<K(!new)>(dist: map<K, real>, pred: map<K, K>, m: K, cw: real, out: map<K, real>,
                               done: set<K>, dist': map<K, real>, pred': map<K, K>, x: K)
    requires PartlyRelaxed(dist, pred, m, cw, out, done, dist', pred')
    requires x in out && x !in done
    requires x !in dist' || cw + out[x] < dist'[x]
    ensures PartlyRelaxed(dist, pred, m, cw, out, done + {x}, dist'[x := cw + out[x]], pred'[x := m])
  {
  }

  /** Relaxing one more connection that does not improve. */
  lemma RelaxKeeps<K(!new)>(dist: map<K, real>, pred: map<K, K>, m: K, cw: real, out: map<K, real>,
                            done: set<K>, dist': map<K, real>, pred': map<K, K>, x: K)
    requires PartlyRelaxed(dist, pred, m, cw, out, done, dist', pred')
    requires x in out && x !in done
    requires !(x !in dist' || cw + out[x] < dist'[x])
    ensures PartlyRelaxed(dist, pred, m, cw, out, done + {x}, dist', pred')
  {
  }

  /** The inner loop over the connections of the station just visited. */
  method Relax<K(==,!new)>(dist: map<K, real>, pred: map<K, K>, m: K, cw: real, out: map<K, real>)
    returns (dist': map<K, real>, pred': map<K, K>)
    ensures RelaxedBy(dist, pred, m, cw, out, dist', pred')
  {
    dist', pred' := dist, pred;
    var todo := out.Keys;
    ghost var done: set<K> := {};
    while todo != {}
      invariant todo == out.Keys - done
      invariant PartlyRelaxed(dist, pred, m, cw, out, done, dist', pred')
      decreases |todo|
    {
      var x :| x in todo;
      dist', pred' := RelaxStep(dist, pred, m, cw, out, done, dist', pred', x);
      RemoveOne(out.Keys, done, x);
      done := done + {x};
      todo := todo - {x};
    }
    RelaxDone(dist, pred, m, cw, out, done, dist', pred');
  }

  /** One connection: the neighbour gets the new distance and predecessor when it was not
      reached yet or the new distance is smaller. */
  method RelaxStep<K(==,!new)>(dist: map<K, real>, pred: map<K, K>, m: K, cw: real, out: map<K, real>,
                               ghost done: set<K>, d: map<K, real>, p: map<K, K>, x: K)
    returns (d': map<K, real>, p': map<K, K>)
    requires PartlyRelaxed(dist, pred, m, cw, out, done, d, p)
    requires x in out && x !in done
    ensures PartlyRelaxed(dist, pred, m, cw, out, done + {x}, d', p')
  {
    var weight := cw + out[x];
    if x !in d || weight < d[x] {
      RelaxImproves(dist, pred, m, cw, out, done, d, p, x);
      d', p' := d[x := weight], p[x := m];
    } else {
      RelaxKeeps(dist, pred, m, cw, out, done, d, p, x);
      d', p' := d, p;
    }
  }

  lemma RemoveOne<K>(all: set<K>, done: set<K>, x: K)
    ensures (all - done) - {x} == all - (done + {x})
  {
  }

  lemma RelaxDone<K(!new)>(dist: map<K, real>, pred: map<K, K>, m: K, cw: real, out: map<K, real>,
                           done: set<K>, dist': map<K, real>, pred': map<K, K>)
    requires out.Keys - done == {}
    requires PartlyRelaxed(dist, pred, m, cw, out, done, dist', pred')
    ensures RelaxedBy(dist, pred, m, cw, out, dist', pred')
  {
    forall x | x in out.Keys
      ensures x in done
    {
      assert x !in out.Keys - done;
    }
    assert done == out.Keys;
  }

  /** The state of the search. `S` holds the stations taken off the unvisited set so far
      (visited, in the algorithm's terms), `rank` the order in which they were taken. */

  /** The predecessor map is a tree rooted at the source: every entry points back to a
      visited station along a stored connection, and the distance is that station's plus the
      connection's. Every reached station other than the source has an entry. */
  ghost predicate Tree<K(!new)>(g: Table<K>, source: K, S: set<K>, dist: map<K, real>, pred: map<K, K>)
  {
    && source in dist && dist[source] == 0.0 && source !in pred
    && (forall v | v in pred ::
          && v in dist && pred[v] in S && pred[v] in dist && IsEdge(g, pred[v], v)
          && dist[v] == dist[pred[v]] + g[pred[v]][v])
    && (forall v | v in dist && v != source :: v in pred)
  }

  /** A visited station's distance is no more than the cost of any walk to it. */
  ghost predicate SettledOptimal<K(!new)>(g: Table<K>, source: K, S: set<K>, dist: map<K, real>)
  {
    forall u, p | u in S && WalkTo(g, source, u, p) :: u in dist && dist[u] <= Cost(g, p)
  }

  /** Every connection out of a visited station has been relaxed. */
  ghost predicate Frontier<K(!new)>(g: Table<K>, S: set<K>, dist: map<K, real>)
  {
    forall u, x | u in S && IsEdge(g, u, x) :: u in dist && x in dist && dist[x] <= dist[u] + g[u][x]
  }

  /** Visited stations are no farther than the reached, unvisited ones. */
  ghost predicate Ordered<K(!new)>(g: Table<K>, S: set<K>, dist: map<K, real>)
  {
    forall u, x | u in S && x in dist && x in g && x !in S :: u in dist && dist[u] <= dist[x]
  }

  /** A visited station's predecessor was visited before it. */
  ghost predicate Ranked<K(!new)>(S: set<K>, pred: map<K, K>, rank: map<K, nat>)
  {
    && rank.Keys == S
    && (forall v | v in S :: rank[v] < |S|)
    && (forall v | v in pred && v in S && pred[v] in S :: rank[pred[v]] < rank[v])
  }

  ghost predicate Inv<K(!new)>(g: Table<K>, source: K, S: set<K>, dist: map<K, real>, pred: map<K, K>, rank: map<K, nat>)
  {
    && S <= g.Keys && S <= dist.Keys
    && (S != {} ==> source in S)
    && Tree(g, source, S, dist, pred)
    && SettledOptimal(g, source, S, dist)
    && Frontier(g, S, dist)
    && Ordered(g, S, dist)
    && Ranked(S, pred, rank)
  }

  /** The main loop is about to visit `m`: a reached, unvisited station at the least distance. */
  ghost predicate Settling<K(!new)>(g: Table<K>, source: K, S: set<K>, dist: map<K, real>, pred: map<K, K>,
                                    rank: map<K, nat>, m: K)
  {
    && NonNegative(g)
    && Inv(g, source, S, dist, pred, rank)
    && m in g && m !in S && m in dist
    && (forall y | y in dist && y in g && y !in S :: dist[m] <= dist[y])
  }

  lemma {:induction false} FirstExit<K>(S: set<K>, p: seq<K>) returns (i: nat)
    requires |p| > 0 && p[0] in S && p[|p| - 1] !in S
    ensures 0 < i < |p| && p[i - 1] in S && p[i] !in S
    decreases |p|
  {
    var n := |p| - 1;
    if p[n - 1] in S {
      i := n;
    } else {
      i := FirstExit(S, p[..n]);
    }
  }

  /** The station visited next is at its least distance: a walk to it leaves the visited
      stations somewhere, at a reached station no nearer than it. */
  lemma SettleBound<K(!new)>(g: Table<K>, source: K, S: set<K>, dist: map<K, real>, pred: map<K, K>,
                             rank: map<K, nat>, m: K, p: seq<K>)
    requires Settling(g, source, S, dist, pred, rank, m)
    requires WalkTo(g, source, m, p)
    ensures dist[m] <= Cost(g, p)
  {
    if S == {} {
      CostNonNegative(g, p);
    } else {
      ExitBound(g, source, S, dist, m, p);
    }
  }

  lemma ExitBound<K(!new)>(g: Table<K>, source: K, S: set<K>, dist: map<K, real>, m: K, p: seq<K>)
    requires NonNegative(g) && S <= dist.Keys && source in S
    requires SettledOptimal(g, source, S, dist) && Frontier(g, S, dist)
    requires m in g && m !in S && m in dist
    requires forall y | y in dist && y in g && y !in S :: dist[m] <= dist[y]
    requires WalkTo(g, source, m, p)
    ensures dist[m] <= Cost(g, p)
  {
    var i := FirstExit(S, p);
    var x, y := p[i - 1], p[i];
    assert IsEdge(g, x, y);
    WalkPrefix(g, p, i);
    assert p[..i][i - 1] == x;
    assert WalkTo(g, source, x, p[..i]);
    CostStep(g, p, i);
    CostPrefix(g, p, i + 1);
    if i < |p| - 1 {
      assert IsEdge(g, p[i], p[i + 1]);
    }
  }

  /** Relaxing from the station being visited never improves a visited station, nor itself. */
  lemma SettledKept<K(!new)>(g: Table<K>, source: K, S: set<K>, dist: map<K, real>, pred: map<K, K>,
                             rank: map<K, nat>, m: K, dist': map<K, real>, pred': map<K, K>)
    requires Settling(g, source, S, dist, pred, rank, m)
    requires RelaxedBy(dist, pred, m, dist[m], g[m], dist', pred')
    ensures forall x | x in S + {m} :: x in dist && x in dist' && dist'[x] == dist[x]
    ensures forall x | x in S + {m} :: (x in pred' <==> x in pred) && (x in pred ==> pred'[x] == pred[x])
  {
    forall x | x in S + {m} && x in g[m]
      ensures !Improves(dist, dist[m], g[m], x)
    {
      assert IsEdge(g, m, x);
    }
  }

  lemma RelaxLowers<K(!new)>(dist: map<K, real>, pred: map<K, K>, m: K, cw: real, out: map<K, real>,
                             dist': map<K, real>, pred': map<K, K>)
    requires RelaxedBy(dist, pred, m, cw, out, dist', pred')
    ensures forall x | x in dist :: x in dist' && dist'[x] <= dist[x]
  {
  }

  lemma SettleTree<K(!new)>(g: Table<K>, source: K, S: set<K>, dist: map<K, real>, pred: map<K, K>,
                            rank: map<K, nat>, m: K, dist': map<K, real>, pred': map<K, K>)
    requires Settling(g, source, S, dist, pred, rank, m)
    requires RelaxedBy(dist, pred, m, dist[m], g[m], dist', pred')
    ensures source in S + {m}
    ensures Tree(g, source, S + {m}, dist', pred')
  {
    SettledKept(g, source, S, dist, pred, rank, m, dist', pred');
    forall v | v in pred'
      ensures && v in dist' && pred'[v] in S + {m} && pred'[v] in dist' && IsEdge(g, pred'[v], v)
              && dist'[v] == dist'[pred'[v]] + g[pred'[v]][v]
    {
      if v in g[m] && Improves(dist, dist[m], g[m], v) {
        assert IsEdge(g, m, v);
      } else {
        assert v in pred && pred'[v] == pred[v];
      }
    }
  }

  lemma SettleOrdered<K(!new)>(g: Table<K>, source: K, S: set<K>, dist: map<K, real>, pred: map<K, K>,
                               rank: map<K, nat>, m: K, dist': map<K, real>, pred': map<K, K>)
    requires Settling(g, source, S, dist, pred, rank, m)
    requires RelaxedBy(dist, pred, m, dist[m], g[m], dist', pred')
    ensures Frontier(g, S + {m}, dist')
    ensures Ordered(g, S + {m}, dist')
  {
    SettledKept(g, source, S, dist, pred, rank, m, dist', pred');
    RelaxLowers(dist, pred, m, dist[m], g[m], dist', pred');
    forall u, x | u in S + {m} && IsEdge(g, u, x)
      ensures u in dist' && x in dist' && dist'[x] <= dist'[u] + g[u][x]
    {
      if u == m && !Improves(dist, dist[m], g[m], x) {
        assert dist'[x] == dist[x];
      }
    }
    forall u, x | u in S + {m} && x in dist' && x in g && x !in S + {m}
      ensures u in dist' && dist'[u] <= dist'[x]
    {
      assert dist[u] <= dist[m];
      if x in g[m] && Improves(dist, dist[m], g[m], x) {
        assert IsEdge(g, m, x);
      } else {
        assert x in dist && dist'[x] == dist[x];
      }
    }
  }

  lemma SettleRanked<K(!new)>(S: set<K>, pred: map<K, K>, rank: map<K, nat>, m: K, pred': map<K, K>)
    requires Ranked(S, pred, rank) && m !in S
    requires forall v | v in pred :: pred[v] in S
    requires forall x | x in S + {m} :: (x in pred' <==> x in pred) && (x in pred ==> pred'[x] == pred[x])
    ensures Ranked(S + {m}, pred', rank[m := |S|])
  {
    var rank' := rank[m := |S|];
    assert |S + {m}| == |S| + 1;
    forall v | v in pred' && v in S + {m} && pred'[v] in S + {m}
      ensures rank'[pred'[v]] < rank'[v]
    {
      assert pred'[v] == pred[v] && pred[v] in S;
    }
  }

  lemma SettleOptimal<K(!new)>(g: Table<K>, source: K, S: set<K>, dist: map<K, real>, pred: map<K, K>,
                               rank: map<K, nat>, m: K, dist': map<K, real>, pred': map<K, K>)
    requires Settling(g, source, S, dist, pred, rank, m)
    requires RelaxedBy(dist, pred, m, dist[m], g[m], dist', pred')
    ensures SettledOptimal(g, source, S + {m}, dist')
  {
    SettledKept(g, source, S, dist, pred, rank, m, dist', pred');
    forall u, p | u in S + {m} && WalkTo(g, source, u, p)
      ensures u in dist' && dist'[u] <= Cost(g, p)
    {
      if u == m {
        SettleBound(g, source, S, dist, pred, rank, m, p);
      }
    }
  }

  /** Visiting `m` keeps every part of the invariant. */
  lemma SettleStep<K(!new)>(g: Table<K>, source: K, S: set<K>, dist: map<K, real>, pred: map<K, K>,
                            rank: map<K, nat>, m: K, dist': map<K, real>, pred': map<K, K>)
    requires Settling(g, source, S, dist, pred, rank, m)
    requires RelaxedBy(dist, pred, m, dist[m], g[m], dist', pred')
    ensures Inv(g, source, S + {m}, dist', pred', rank[m := |S|])
  {
    SettledKept(g, source, S, dist, pred, rank, m, dist', pred');
    SettleTree(g, source, S, dist, pred, rank, m, dist', pred');
    SettleOptimal(g, source, S, dist, pred, rank, m, dist', pred');
    SettleOrdered(g, source, S, dist, pred, rank, m, dist', pred');
    SettleRanked(S, pred, rank, m, pred');
  }

  /** The state the main loop ends in: no reached station with connections is left
      unvisited. */
  ghost predicate Final<K(!new)>(g: Table<K>, source: K, S: set<K>, dist: map<K, real>, pred: map<K, K>, rank: map<K, nat>)
  {
    Inv(g, source, S, dist, pred, rank) && forall x | x in dist && x in g :: x in S
  }

  /** The main loop of `find_best_path`: visit the nearest reached station, relax its
      connections, until no unvisited station is reached. `dist` is `visited` and `pred` is
      `path` in the source's terms. */
  method Explore<K(==,!new)>(g: Table<K>, source: K)
    returns (dist: map<K, real>, pred: map<K, K>, ghost S: set<K>, ghost rank: map<K, nat>)
    requires NonNegative(g)
    ensures Final(g, source, S, dist, pred, rank)
  {
    dist := map[source := 0.0];
    pred := map[];
    S := {};
    rank := map[];
    var remaining := g.Keys;
    while remaining != {}
      invariant Searching(g, source, remaining, S, dist, pred, rank)
      decreases |remaining|
    {
      var min := SelectMin(remaining, dist);
      if min.None? {
        break;
      }
      var m := min.value;
      RemoveOne(g.Keys, S, m);
      remaining := remaining - {m};
      dist, pred := Visit(g, source, m, dist, pred, S, rank);
      S, rank := S + {m}, rank[m := |S|];
    }
    ExitFinal(g, source, S, dist, pred, rank, remaining);
  }

  /** The main loop's invariant: the unvisited set is what has not been visited yet. */
  ghost predicate Searching<K(!new)>(g: Table<K>, source: K, remaining: set<K>, S: set<K>, dist: map<K, real>,
                                     pred: map<K, K>, rank: map<K, nat>)
  {
    remaining == g.Keys - S && Inv(g, source, S, dist, pred, rank)
  }

  /** Visiting `m`: its connections are relaxed from the distance it was reached at. */
  method Visit<K(==,!new)>(g: Table<K>, source: K, m: K, dist: map<K, real>, pred: map<K, K>,
                           ghost S: set<K>, ghost rank: map<K, nat>)
    returns (dist': map<K, real>, pred': map<K, K>)
    requires NonNegative(g) && Inv(g, source, S, dist, pred, rank)
    requires m in g && m !in S && m in dist
    requires forall y | y in g.Keys - S && y in dist :: dist[m] <= dist[y]
    ensures Inv(g, source, S + {m}, dist', pred', rank[m := |S|])
  {
    assert Settling(g, source, S, dist, pred, rank, m) by {
      forall y | y in dist && y in g && y !in S
        ensures dist[m] <= dist[y]
      {
        assert y in g.Keys - S;
      }
    }
    var cw := dist[m];
    dist', pred' := Relax(dist, pred, m, cw, g[m]);
    SettleStep(g, source, S, dist, pred, rank, m, dist', pred');
  }

  lemma ExitFinal<K(!new)>(g: Table<K>, source: K, S: set<K>, dist: map<K, real>, pred: map<K, K>,
                           rank: map<K, nat>, remaining: set<K>)
    requires Inv(g, source, S, dist, pred, rank)
    requires remaining == g.Keys - S
    requires forall s | s in remaining :: s !in dist
    ensures Final(g, source, S, dist, pred, rank)
  {
    forall x | x in dist && x in g
      ensures x in S
    {
      assert x !in remaining;
    }
  }

  /** Every station a walk from the source reaches was reached by the search. */
  lemma {:induction false} FinalReach<K(!new)>(g: Table<K>, source: K, S: set<K>, dist: map<K, real>, pred: map<K, K>,
                                               rank: map<K, nat>, p: seq<K>)
    requires Final(g, source, S, dist, pred, rank)
    requires IsWalk(g, p) && p[0] == source
    ensures p[|p| - 1] in dist
    decreases |p|
  {
    if |p| > 1 {
      var n := |p| - 1;
      WalkPrefix(g, p, n);
      FinalReach(g, source, S, dist, pred, rank, p[..n]);
      assert IsEdge(g, p[n - 1], p[n]);
    }
  }

  /** Every reached station's distance is the least cost of a walk to it. */
  lemma FinalOptimal<K(!new)>(g: Table<K>, source: K, S: set<K>, dist: map<K, real>, pred: map<K, K>,
                              rank: map<K, nat>, v: K, p: seq<K>)
    requires NonNegative(g) && Final(g, source, S, dist, pred, rank)
    requires WalkTo(g, source, v, p)
    ensures v in dist && dist[v] <= Cost(g, p)
  {
    FinalReach(g, source, S, dist, pred, rank, p);
    if v !in S {
      if |p| == 1 {
        CostNonNegative(g, p);
      } else {
        var n := |p| - 1;
        var x := p[n - 1];
        WalkPrefix(g, p, n);
        FinalReach(g, source, S, dist, pred, rank, p[..n]);
        assert IsEdge(g, x, v);
        assert WalkTo(g, source, x, p[..n]);
        CostStep(g, p, n);
        assert p[..n + 1] == p;
      }
    }
  }

  /** How far the predecessor walk still has to go from `cur`. */
  ghost function Height<K>(S: set<K>, rank: map<K, nat>, cur: Option<K>): nat
  {
    if cur.None? then 0 else if cur.value in rank then rank[cur.value] + 1 else |S| + 1
  }

  /** The reconstruction: follow the predecessors from the destination until a station with
      none, then reverse. */
  method Reconstruct<K(==,!new)>(pred: map<K, K>, destination: K, ghost g: Table<K>, ghost source: K,
                                 ghost S: set<K>, ghost dist: map<K, real>, ghost rank: map<K, nat>)
    returns (path: seq<K>)
    requires Final(g, source, S, dist, pred, rank)
    requires destination in pred
    ensures WalkTo(g, source, destination, path) && |path| >= 2
    ensures Cost(g, path) == dist[destination]
  {
    var best: seq<K> := [];
    var cur: Option<K> := Some(destination);
    while cur.Some?
      invariant cur.Some? ==> cur.value in dist
      invariant best == [] ==> cur == Some(destination)
      invariant best != [] ==> Trail(g, dist, destination, best)
      invariant best != [] && cur.Some? ==> best[|best| - 1] in pred && pred[best[|best| - 1]] == cur.value
      invariant best != [] && cur.None? ==> best[|best| - 1] !in pred
      decreases Height(S, rank, cur)
    {
      var c := cur.value;
      TrailExtend(g, source, S, dist, pred, rank, destination, best, c);
      best := best + [c];
      cur := if c in pred then Some(pred[c]) else None;
    }
    path := Reverse(best);
  }

  /** `best`, read backwards, is a walk to the destination whose cost makes up the rest of the
      destination's distance. */
  ghost predicate Trail<K(!new)>(g: Table<K>, dist: map<K, real>, destination: K, best: seq<K>)
  {
    && |best| > 0 && best[0] == destination
    && IsWalk(g, Reverse(best))
    && best[|best| - 1] in dist && destination in dist
    && dist[destination] == dist[best[|best| - 1]] + Cost(g, Reverse(best))
  }

  lemma TrailExtend<K(!new)>(g: Table<K>, source: K, S: set<K>, dist: map<K, real>, pred: map<K, K>,
                             rank: map<K, nat>, destination: K, best: seq<K>, c: K)
    requires Final(g, source, S, dist, pred, rank)
    requires c in dist && destination in dist
    requires best == [] ==> c == destination
    requires best != [] ==> Trail(g, dist, destination, best) && best[|best| - 1] in pred && pred[best[|best| - 1]] == c
    ensures Trail(g, dist, destination, best + [c])
    ensures c in pred ==> pred[c] in dist && Height(S, rank, Some(pred[c])) < Height(S, rank, Some(c))
  {
    ReverseAppend(best, c);
    if best != [] {
      var b := best[|best| - 1];
      var r := Reverse(best);
      assert r[0] == b;
      assert IsEdge(g, c, b);
      CostCons(g, c, r);
      assert IsWalk(g, [c] + r) by {
        forall i | 0 <= i < |r|
          ensures IsEdge(g, ([c] + r)[i], ([c] + r)[i + 1])
        {
          if i > 0 {
            assert ([c] + r)[i] == r[i - 1] && ([c] + r)[i + 1] == r[i];
          }
        }
      }
    }
  }

  /** A station is reachable from the source along at least one connection. */
  ghost predicate Reachable<K(!new)>(g: Table<K>, source: K, destination: K)
  {
    exists p | WalkTo(g, source, destination, p) :: |p| >= 2
  }

  /** The graph: for each station added, its outgoing connections and their distances. */
  class Graph<K(==,!new)> {
    var stations: Table<K>

    constructor()
      ensures stations == map[]
    {
      stations := map[];
    }

    /** Maps the station to an empty table, dropping any connections it had. */
    method AddStation(station: K)
      modifies this
      ensures stations == old(stations)[station := map[]]
    {
      stations := stations[station := map[]];
    }

    /** Sets the distance of one connection, replacing an earlier one; a source never added
        raises `KeyError`. The destination need not have been added. */
    method AddConnection(source: K, destination: K, distance: real) returns (r: Outcome)
      modifies this
      ensures r.Pass? <==> source in old(stations)
      ensures r.Pass? ==> stations == old(stations)[source := old(stations)[source][destination := distance]]
      ensures r.Fail? ==> stations == old(stations)
    {
      if source !in stations {
        return Fail("KeyError");
      }
      stations := stations[source := stations[source][destination := distance]];
      r := Pass;
    }

    /** The cheapest path from `source` to `destination`, or none when the destination never
        got a predecessor: when it is unreachable, or is the source itself. */
    method FindBestPath(source: K, destination: K) returns (r: Option<seq<K>>)
      requires NonNegative(stations)
      ensures r.Some? <==> destination != source && Reachable(stations, source, destination)
      ensures r.Some? ==> WalkTo(stations, source, destination, r.value) && |r.value| >= 2
      ensures r.Some? ==> forall p | WalkTo(stations, source, destination, p) :: Cost(stations, r.value) <= Cost(stations, p)
    {
      var dist, pred, S, rank := Explore(stations, source);
      if destination !in pred {
        NoPredecessorUnreachable(stations, source, S, dist, pred, rank, destination);
        return None;
      }
      var path := Reconstruct(pred, destination, stations, source, S, dist, rank);
      forall p | WalkTo(stations, source, destination, p)
        ensures Cost(stations, path) <= Cost(stations, p)
      {
        FinalOptimal(stations, source, S, dist, pred, rank, destination, p);
      }
      r := Some(path);
    }
  }

  /** Without a predecessor, the destination is the source or cannot be reached. */
  lemma NoPredecessorUnreachable<K(!new)>(g: Table<K>, source: K, S: set<K>, dist: map<K, real>, pred: map<K, K>,
                                          rank: map<K, nat>, destination: K)
    requires Final(g, source, S, dist, pred, rank)
    requires destination !in pred
    ensures !(destination != source && Reachable(g, source, destination))
  {
    if destination != source && Reachable(g, source, destination) {
      var p :| WalkTo(g, source, destination, p) && |p| >= 2;
      FinalReach(g, source, S, dist, pred, rank, p);
    }
  }

  /** The service holding one graph. */
  class GraphService<K(==,!new)> {
    const graph: Graph<K>

    constructor()
      ensures fresh(graph) && graph.stations == map[]
    {
      graph := new Graph();
    }

    /** Adds every station in turn, each with no connections. */
    method BuildGraph(stations: seq<K>)
      modifies graph
      ensures graph.stations.Keys == old(graph.stations).Keys + set s | s in stations
      ensures forall s | s in stations :: graph.stations[s] == map[]
      ensures forall s | s in old(graph.stations) && s !in stations :: graph.stations[s] == old(graph.stations)[s]
    {
      var i := 0;
      while i < |stations|
        invariant i <= |stations|
        invariant graph.stations.Keys == old(graph.stations).Keys + set s | s in stations[..i]
        invariant forall s | s in stations[..i] :: graph.stations[s] == map[]
        invariant forall s | s in old(graph.stations) && s !in stations[..i] :: graph.stations[s] == old(graph.stations)[s]
      {
        graph.AddStation(stations[i]);
        assert stations[..i + 1] == stations[..i] + [stations[i]];
        i := i + 1;
      }
      assert stations[..i] == stations;
    }

    method AddConnection(source: K, destination: K, distance: real) returns (r: Outcome)
      modifies graph
      ensures r.Pass? <==> source in old(graph.stations)
      ensures r.Pass? ==> graph.stations == old(graph.stations)[source := old(graph.stations)[source][destination := distance]]
      ensures r.Fail? ==> graph.stations == old(graph.stations)
    {
      r := graph.AddConnection(source, destination, distance);
    }

    method FindBestPath(source: K, destination: K) returns (r: Option<seq<K>>)
      requires NonNegative(graph.stations)
      ensures r.Some? <==> destination != source && Reachable(graph.stations, source, destination)
      ensures r.Some? ==> WalkTo(graph.stations, source, destination, r.value)
      ensures r.Some? ==> forall p | WalkTo(graph.stations, source, destination, p) :: Cost(graph.stations, r.value) <= Cost(graph.stations, p)
    {
      r := graph.FindBestPath(source, destination);
    }
  }
}
