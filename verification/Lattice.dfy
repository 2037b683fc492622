/** The lattice of tokens and forward links, and the slack of its paths. */
module Lattice {
  import opened Composition
  import opened Costs

  type Addr = nat

  /** A link to a token on the next frame or, for an input epsilon, on the same one. */
  datatype ForwardLink = ForwardLink(
    nextTok: Addr, ilabel: int, olabel: int, graphCost: int, acousticCost: int)

  /** What the heap holds at a token's address; the newest link comes first. */
  datatype Token = Token(totCost: int, extraCost: Cost, links: seq<ForwardLink>)

  /** The heap of live tokens: deleting a token removes its address. */
  type Heap = map<Addr, Token>

  /** A token as it stood when the search had finished with its frame, before any pruning. */
  datatype Node = Node(frame: nat, pair: PairId, totCost: int, links: seq<ForwardLink>)

  /** Everything the search ever created: no pruning step removes anything from it. */
  type Created = map<Addr, Node>

  /** How much worse it is to reach the link's end through this link. */
  ghost function Slack(c: Created, a: Addr, l: ForwardLink): int
    requires a in c && l.nextTok in c
  {
    c[a].totCost + l.acousticCost + l.graphCost - c[l.nextTok].totCost
  }

  ghost predicate LinkOk(c: Created, a: Addr, l: ForwardLink)
    requires a in c
  {
    && l.nextTok in c
    && Slack(c, a, l) >= 0
    && c[l.nextTok].frame == c[a].frame + (if l.ilabel == 0 then 0 else 1)
  }

  ghost predicate WellFormed(c: Created) {
    forall a, l :: a in c && l in c[a].links ==> LinkOk(c, a, l)
  }

  ghost predicate IsPath(c: Created, a: Addr, p: seq<ForwardLink>, z: Addr)
    decreases |p|
  {
    && a in c
    && if p == [] then a == z else p[0] in c[a].links && IsPath(c, p[0].nextTok, p[1..], z)
  }

  ghost function PathSlack(c: Created, a: Addr, p: seq<ForwardLink>, z: Addr): (s: int)
    requires WellFormed(c) && IsPath(c, a, p, z)
    ensures s >= 0
    decreases |p|
  {
    if p == [] then 0 else
      assert LinkOk(c, a, p[0]);
      Slack(c, a, p[0]) + PathSlack(c, p[0].nextTok, p[1..], z)
  }

  /** Graph and acoustic costs along a path. */
  ghost function PathCost(p: seq<ForwardLink>): int {
    if p == [] then 0 else p[0].graphCost + p[0].acousticCost + PathCost(p[1..])
  }

  /** Slack telescopes: it is what the path costs beyond the best way to its end. */
  lemma {:induction false} SlackTelescopes(c: Created, a: Addr, p: seq<ForwardLink>, z: Addr)
    requires WellFormed(c) && IsPath(c, a, p, z)
    ensures z in c
    ensures PathSlack(c, a, p, z) == c[a].totCost + PathCost(p) - c[z].totCost
    decreases |p|
  {
    if p != [] {
      assert LinkOk(c, a, p[0]);
      SlackTelescopes(c, p[0].nextTok, p[1..], z);
    }
  }

  lemma {:induction false} Concatenate(c: Created, a: Addr, p: seq<ForwardLink>, b: Addr, q: seq<ForwardLink>, z: Addr)
    requires WellFormed(c) && IsPath(c, a, p, b) && IsPath(c, b, q, z)
    ensures IsPath(c, a, p + q, z)
    ensures PathSlack(c, a, p + q, z) == PathSlack(c, a, p, b) + PathSlack(c, b, q, z)
    ensures PathCost(p + q) == PathCost(p) + PathCost(q)
    decreases |p|
  {
    if p == [] {
      assert p + q == q;
    } else {
      assert LinkOk(c, a, p[0]);
      Concatenate(c, p[0].nextTok, p[1..], b, q, z);
      assert (p + q)[1..] == p[1..] + q;
    }
  }

  lemma {:induction false} Split(c: Created, a: Addr, p: seq<ForwardLink>, z: Addr, k: nat) returns (b: Addr)
    requires WellFormed(c) && IsPath(c, a, p, z) && k <= |p|
    ensures IsPath(c, a, p[..k], b) && IsPath(c, b, p[k..], z)
    ensures PathSlack(c, a, p, z) == PathSlack(c, a, p[..k], b) + PathSlack(c, b, p[k..], z)
    ensures PathCost(p) == PathCost(p[..k]) + PathCost(p[k..])
    decreases |p|
  {
    if k == 0 {
      b := a;
      assert p[k..] == p;
    } else {
      assert LinkOk(c, a, p[0]);
      b := Split(c, p[0].nextTok, p[1..], z, k - 1);
      assert p[..k][1..] == p[1..][..k - 1] && p[1..][k - 1..] == p[k..];
    }
  }

  /** Frames never decrease along a path. */
  lemma {:induction false} FramesRise(c: Created, a: Addr, p: seq<ForwardLink>, z: Addr)
    requires WellFormed(c) && IsPath(c, a, p, z)
    ensures z in c && c[a].frame <= c[z].frame
    decreases |p|
  {
    if p != [] {
      assert LinkOk(c, a, p[0]);
      FramesRise(c, p[0].nextTok, p[1..], z);
    }
  }
}
