/** The links of a fat tree with `k` pods, as the topology script of the data centre example makes them, and
    the paths that they form. */
module FatTree {

  /** The switches and hosts at the ends of a link, by their places in the script's lists. */
  datatype Link = CoreAgg(core: nat, agg: nat) | AggEdge(agg: nat, edge: nat) | EdgeHost(edge: nat, host: nat)

  // ----- Arithmetic ------------------------------------------------------------------------------

  lemma MulAtLeast(d: int, h: int)
    requires h > 0
    ensures d >= 1 ==> d * h >= h
    ensures d <= -1 ==> d * h <= -h
  {
    if d >= 1 { assert (d - 1) * h >= 0; }
    if d <= -1 { assert (-1 - d) * h >= 0; }
  }

  lemma DivMod(h: nat, a: nat, b: nat)
    requires b < h
    ensures (a * h + b) / h == a && (a * h + b) % h == b
  {
    var q, r := (a * h + b) / h, (a * h + b) % h;
    assert q * h + r == a * h + b;
    assert (q - a) * h == b - r;
    MulAtLeast(q - a, h);
  }

  lemma DivBound(h: nat, n: nat, m: nat)
    requires h > 0 && n < m * h
    ensures n / h < m
  {
    var q, r := n / h, n % h;
    assert (m - q) * h == m * h - n + r;
    MulAtLeast(m - q - 1, h);
    assert (m - q - 1) * h == m * h - n + r - h;
  }

  /** `a` * `h` + `b` determines both. */
  lemma Places(h: nat, a: nat, b: nat, m: nat)
    requires b < h && a < m
    ensures a * h + b < m * h
  {
    MulAtLeast(m - a, h);
    assert (m - a) * h == m * h - a * h;
  }

  // ----- The links, in the order in which they are made ------------------------------------------

  /** Link `n` from the core to an aggregation switch, where `h` is half of the number of ports. */
  function CoreAggLink(h: nat, n: nat): Link
    requires h > 0
  {
    CoreAgg((n / h % h) * h + n % h, n / h)
  }

  function AggEdgeLink(h: nat, n: nat): Link
    requires h > 0
  {
    AggEdge(n / h, (n / h / h) * h + n % h)
  }

  function EdgeHostLink(density: nat, n: nat): Link
    requires density > 0
  {
    EdgeHost(n / density, n)
  }

  ghost function CoreAggLinks(h: nat): nat -> Link
    requires h > 0
  {
    (n: nat) => CoreAggLink(h, n)
  }

  ghost function AggEdgeLinks(h: nat): nat -> Link
    requires h > 0
  {
    (n: nat) => AggEdgeLink(h, n)
  }

  ghost function EdgeHostLinks(density: nat): nat -> Link {
    (n: nat) => if density > 0 then EdgeHostLink(density, n) else EdgeHost(0, 0)
  }

  ghost function Links(n: nat, f: nat -> Link): (l: seq<Link>)
    ensures |l| == n && forall i: nat | i < n :: l[i] == f(i)
  {
    seq(n, (i: nat) requires i < n => f(i))
  }

  lemma OneMore(n: nat, f: nat -> Link)
    ensures Links(n + 1, f) == Links(n, f) + [f(n)]
  {
  }

  /** `more` has `n` further links, made by `f`. */
  ghost predicate Grown(links: seq<Link>, more: seq<Link>, n: nat, f: nat -> Link) {
    more == links + Links(n, f)
  }

  lemma GrownOne(links: seq<Link>, more: seq<Link>, n: nat, f: nat -> Link)
    requires Grown(links, more, n, f)
    ensures Grown(links, more + [f(n)], n + 1, f)
  {
    OneMore(n, f);
  }

  lemma NextRow(h: nat, a: nat)
    ensures a * h + h == (a + 1) * h
  {
  }

  lemma NoneYet(links: seq<Link>, n: int, f: nat -> Link)
    requires n == 0
    ensures Grown(links, links, n, f)
  {
    assert Links(0, f) == [];
  }

  class Topology {
    const half: nat
    const density: nat
    var links: seq<Link>

    constructor (half: nat, density: nat)
      ensures this.half == half && this.density == density && links == []
    {
      this.half, this.density, links := half, density, [];
    }

    /** Aggregation switch x + i is linked to a row of core switches. */
    method LinkCoreRow(x: nat, i: nat, ghost start: seq<Link>, ghost pod: nat)
      requires half > 0 && i < half && x == pod * half && Grown(start, links, (x + i) * half, CoreAggLinks(half))
      modifies `links
      ensures Grown(start, links, (x + i + 1) * half, CoreAggLinks(half))
    {
      hide Grown;
      var j := 0;
      while j < half
        invariant j <= half && Grown(start, links, (x + i) * half + j, CoreAggLinks(half))
      {
        DivMod(half, x + i, j);
        DivMod(half, pod, i);
        GrownOne(start, links, (x + i) * half + j, CoreAggLinks(half));
        links := links + [CoreAgg(i * half + j, x + i)];
        j := j + 1;
      }
      NextRow(half, x + i);
    }

    /** Aggregation switch x + i is linked to the edge switches of its pod. */
    method LinkAggRow(x: nat, i: nat, ghost start: seq<Link>, ghost pod: nat)
      requires half > 0 && i < half && x == pod * half && Grown(start, links, (x + i) * half, AggEdgeLinks(half))
      modifies `links
      ensures Grown(start, links, (x + i + 1) * half, AggEdgeLinks(half))
    {
      hide Grown;
      var j := 0;
      while j < half
        invariant j <= half && Grown(start, links, (x + i) * half + j, AggEdgeLinks(half))
      {
        DivMod(half, x + i, j);
        DivMod(half, pod, i);
        GrownOne(start, links, (x + i) * half + j, AggEdgeLinks(half));
        links := links + [AggEdge(x + i, x + j)];
        j := j + 1;
      }
      NextRow(half, x + i);
    }

    /** The switches of one pod, which begin at number x: with the core, or with each other. */
    method LinkPod(x: nat, toCore: bool, ghost start: seq<Link>, ghost pod: nat)
      requires half > 0 && x == pod * half
      requires Grown(start, links, x * half, if toCore then CoreAggLinks(half) else AggEdgeLinks(half))
      modifies `links
      ensures Grown(start, links, (x + half) * half, if toCore then CoreAggLinks(half) else AggEdgeLinks(half))
    {
      hide Grown;
      var i := 0;
      while i < half
        invariant i <= half
        invariant Grown(start, links, (x + i) * half, if toCore then CoreAggLinks(half) else AggEdgeLinks(half))
      {
        if toCore { LinkCoreRow(x, i, start, pod); } else { LinkAggRow(x, i, start, pod); }
        i := i + 1;
      }
    }

    /** The switches of all pods: core switch i * half + j is linked to aggregation switch i of every pod, or
        the aggregation and edge switches of every pod are linked to each other. */
    method LinkPods(toCore: bool)
      requires half > 0
      modifies `links
      ensures Grown(old(links), links, 2 * half * half * half, if toCore then CoreAggLinks(half) else AggEdgeLinks(half))
    {
      hide Grown;
      var x := 0;
      ghost var pod := 0;
      NoneYet(links, x * half, if toCore then CoreAggLinks(half) else AggEdgeLinks(half));
      while x < 2 * half * half
        invariant x == pod * half && pod <= 2 * half
        invariant Grown(old(links), links, x * half, if toCore then CoreAggLinks(half) else AggEdgeLinks(half))
        decreases 2 * half - pod
      {
        BelowPods(half, pod);
        LinkPod(x, toCore, old(links), pod);
        NextRow(half, pod);
        x := x + half;
        pod := pod + 1;
      }
      AllPods(half, pod);
    }

    /** Every edge switch is linked to its hosts. */
    method LinkHosts()
      modifies `links
      ensures Grown(old(links), links, 2 * half * half * density, EdgeHostLinks(density))
    {
      hide Grown;
      var x := 0;
      NoneYet(links, x * density, EdgeHostLinks(density));
      while x < 2 * half * half
        invariant x <= 2 * half * half && Grown(old(links), links, x * density, EdgeHostLinks(density))
      {
        var i := 0;
        while i < density
          invariant i <= density && Grown(old(links), links, x * density + i, EdgeHostLinks(density))
        {
          DivMod(density, x, i);
          GrownOne(old(links), links, x * density + i, EdgeHostLinks(density));
          links := links + [EdgeHost(x, density * x + i)];
          i := i + 1;
        }
        NextRow(density, x);
        x := x + 1;
      }
    }

    /** `createLink` */
    method CreateLink()
      requires half > 0 && links == []
      modifies `links
      ensures links == FatTreeLinks(half, density)
    {
      LinkPods(true);
      LinkPods(false);
      LinkHosts();
      assert [] + Links(2 * half * half * half, CoreAggLinks(half)) == Links(2 * half * half * half, CoreAggLinks(half));
    }
  }

  /** All links of a fat tree with 2 * `h` pods. */
  ghost function FatTreeLinks(h: nat, density: nat): seq<Link>
    requires h > 0
  {
    Links(2 * h * h * h, CoreAggLinks(h)) + Links(2 * h * h * h, AggEdgeLinks(h))
    + Links(2 * h * h * density, EdgeHostLinks(density))
  }

  lemma BelowPods(h: nat, pod: nat)
    requires pod * h < 2 * h * h && h > 0
    ensures pod < 2 * h
  {
    MulAtLeast(pod - 2 * h, h);
    assert (pod - 2 * h) * h == pod * h - 2 * h * h;
  }

  lemma AllPods(h: nat, pod: nat)
    requires pod <= 2 * h && pod * h >= 2 * h * h && h > 0
    ensures pod * h * h == 2 * h * h * h
  {
    MulAtLeast(2 * h - pod, h);
    assert (2 * h - pod) * h == 2 * h * h - pod * h;
  }

  // ----- Which switches are linked ---------------------------------------------------------------

  lemma InLinks(h: nat, density: nat, l: Link)
    requires h > 0
    ensures l in FatTreeLinks(h, density) <==>
              (exists n: nat :: n < 2 * h * h * h && CoreAggLink(h, n) == l)
              || (exists n: nat :: n < 2 * h * h * h && AggEdgeLink(h, n) == l)
              || (exists n: nat :: n < 2 * h * h * density && EdgeHostLinks(density)(n) == l)
  {
    var a, b, c := Links(2 * h * h * h, CoreAggLinks(h)), Links(2 * h * h * h, AggEdgeLinks(h)), Links(2 * h * h * density, EdgeHostLinks(density));
    assert l in a + b + c <==> l in a || l in b || l in c;
    assert forall n: nat | n < 2 * h * h * h :: a[n] == CoreAggLink(h, n);
    assert forall n: nat | n < 2 * h * h * h :: b[n] == AggEdgeLink(h, n);
    assert forall n: nat | n < 2 * h * h * density :: c[n] == EdgeHostLinks(density)(n);
  }

  lemma ModBound(h: nat, n: nat)
    requires h > 0
    ensures n % h < h && n == n / h * h + n % h
  {
  }

  lemma CoreAggHas(h: nat, c: nat, a: nat) returns (n: nat)
    requires h > 0 && a < 2 * h * h && c / h == a % h
    ensures n < 2 * h * h * h && CoreAggLink(h, n) == CoreAgg(c, a)
  {
    n := a * h + c % h;
    ModBound(h, a);
    ModBound(h, c);
    DivMod(h, a, c % h);
    Places(h, a, c % h, 2 * h * h);
  }

  lemma CoreAggOnly(h: nat, n: nat)
    requires h > 0 && n < 2 * h * h * h
    ensures var l := CoreAggLink(h, n); l.core < h * h && l.agg < 2 * h * h && l.core / h == l.agg % h
  {
    var a := n / h;
    ModBound(h, a);
    ModBound(h, n);
    DivBound(h, n, 2 * h * h);
    DivMod(h, a % h, n % h);
    Places(h, a % h, n % h, h);
  }

  /** A core switch and an aggregation switch are linked exactly if the number of the first, divided by k/2,
      is the place of the second in its pod. */
  lemma CoreAggIff(h: nat, density: nat, c: nat, a: nat)
    requires h > 0
    ensures CoreAgg(c, a) in FatTreeLinks(h, density) <==> c < h * h && a < 2 * h * h && c / h == a % h
  {
    InLinks(h, density, CoreAgg(c, a));
    if c < h * h && a < 2 * h * h && c / h == a % h { var n := CoreAggHas(h, c, a); }
    hide FatTreeLinks;
    forall n: nat | n < 2 * h * h * h && CoreAggLink(h, n) == CoreAgg(c, a)
      ensures c < h * h && a < 2 * h * h && c / h == a % h
    {
      CoreAggOnly(h, n);
    }
  }

  lemma AggEdgeHas(h: nat, a: nat, e: nat) returns (n: nat)
    requires h > 0 && a < 2 * h * h && a / h == e / h
    ensures n < 2 * h * h * h && AggEdgeLink(h, n) == AggEdge(a, e)
  {
    n := a * h + e % h;
    ModBound(h, e);
    DivMod(h, a, e % h);
    Places(h, a, e % h, 2 * h * h);
  }

  lemma AggEdgeOnly(h: nat, n: nat)
    requires h > 0 && n < 2 * h * h * h
    ensures var l := AggEdgeLink(h, n); l.agg < 2 * h * h && l.edge < 2 * h * h && l.agg / h == l.edge / h
  {
    var a := n / h;
    ModBound(h, n);
    DivBound(h, n, 2 * h * h);
    DivBound(h, a, 2 * h);
    DivMod(h, a / h, n % h);
    Places(h, a / h, n % h, 2 * h);
  }

  /** An aggregation switch and an edge switch are linked exactly if they are in the same pod. */
  lemma AggEdgeIff(h: nat, density: nat, a: nat, e: nat)
    requires h > 0
    ensures AggEdge(a, e) in FatTreeLinks(h, density) <==> a < 2 * h * h && e < 2 * h * h && a / h == e / h
  {
    InLinks(h, density, AggEdge(a, e));
    if a < 2 * h * h && a / h == e / h { var n := AggEdgeHas(h, a, e); }
    hide AggEdgeLink;
    forall n: nat | n < 2 * h * h * h && AggEdgeLink(h, n) == AggEdge(a, e)
      ensures a < 2 * h * h && e < 2 * h * h && a / h == e / h
    {
      AggEdgeOnly(h, n);
    }
  }

  /** Every core switch is linked to exactly one switch of each pod. */
  lemma CoreDegree(h: nat, density: nat, c: nat, p: nat, a: nat)
    requires h > 0 && c < h * h && p < 2 * h && a / h == p
    ensures CoreAgg(c, a) in FatTreeLinks(h, density) <==> a == p * h + c / h
  {
    CoreAggIff(h, density, c, a);
    DivBound(h, c, h);
    DivMod(h, p, c / h);
    Places(h, p, c / h, 2 * h);
    ModBound(h, a);
  }

  /** Every host is linked to exactly one edge switch. */
  lemma HostDegree(h: nat, density: nat, e: nat, x: nat)
    requires h > 0 && density > 0 && x < 2 * h * h * density
    ensures EdgeHost(e, x) in FatTreeLinks(h, density) <==> e == x / density
  {
    InLinks(h, density, EdgeHost(e, x));
    assert EdgeHostLinks(density)(x) == EdgeHost(x / density, x);
  }

  /** No link is made twice. */
  lemma NoDuplicates(h: nat, density: nat, i: nat, j: nat)
    requires h > 0 && i < j < |FatTreeLinks(h, density)|
    ensures FatTreeLinks(h, density)[i] != FatTreeLinks(h, density)[j]
  {
    var c := 2 * h * h * h;
    var l := FatTreeLinks(h, density);
    LinkAt(h, density, i);
    LinkAt(h, density, j);
    hide FatTreeLinks;
    if j < c {
      CoreAggPlace(h, i);
      CoreAggPlace(h, j);
    } else if c <= i && j < c + c {
      AggEdgePlace(h, i - c);
      AggEdgePlace(h, j - c);
    }
  }

  lemma LinkAt(h: nat, density: nat, i: nat)
    requires h > 0 && i < |FatTreeLinks(h, density)|
    ensures var c := 2 * h * h * h;
            FatTreeLinks(h, density)[i] ==
            if i < c then CoreAggLink(h, i) else if i < c + c then AggEdgeLink(h, i - c)
            else EdgeHostLinks(density)(i - c - c)
    ensures i >= 4 * h * h * h ==> density > 0
  {
    if density == 0 { assert 2 * h * h * density == 0; }
  }

  /** A link determines when it was made. */
  lemma CoreAggPlace(h: nat, n: nat)
    requires h > 0
    ensures CoreAggLink(h, n).agg * h + CoreAggLink(h, n).core % h == n
  {
    ModBound(h, n);
    DivMod(h, n / h % h, n % h);
  }

  lemma AggEdgePlace(h: nat, n: nat)
    requires h > 0
    ensures AggEdgeLink(h, n).agg * h + AggEdgeLink(h, n).edge % h == n
  {
    ModBound(h, n);
    DivMod(h, n / h / h, n % h);
  }

  // ----- Paths -----------------------------------------------------------------------------------

  /** From edge switch `e` by way of the aggregation switches `a` and `b` and core switch `c` to `f`. */
  ghost predicate Path(h: nat, density: nat, e: nat, a: nat, c: nat, b: nat, f: nat)
    requires h > 0
  {
    var l := FatTreeLinks(h, density);
    AggEdge(a, e) in l && CoreAgg(c, a) in l && CoreAgg(c, b) in l && AggEdge(b, f) in l
  }

  /** Between any two edge switches there is exactly one such path by way of each of the (k/2)^2 core
      switches. */
  lemma OnePathPerCore(h: nat, density: nat, e: nat, a: nat, c: nat, b: nat, f: nat)
    requires h > 0 && e < 2 * h * h && f < 2 * h * h
    ensures Path(h, density, e, a, c, b, f) <==>
              c < h * h && a == (e / h) * h + c / h && b == (f / h) * h + c / h
  {
    AggEdgeIff(h, density, a, e);
    AggEdgeIff(h, density, b, f);
    DivBound(h, e, 2 * h);
    DivBound(h, f, 2 * h);
    OneAgg(h, density, c, e / h, a);
    OneAgg(h, density, c, f / h, b);
  }

  /** The only switch of pod `p` that is linked to core switch `c`. */
  lemma OneAgg(h: nat, density: nat, c: nat, p: nat, a: nat)
    requires h > 0 && p < 2 * h
    ensures a / h == p && a < 2 * h * h && CoreAgg(c, a) in FatTreeLinks(h, density) <==>
            c < h * h && a == p * h + c / h
  {
    CoreAggIff(h, density, c, a);
    if c < h * h {
      DivBound(h, c, h);
      DivMod(h, p, c / h);
      Places(h, p, c / h, 2 * h);
      ModBound(h, a);
    }
  }

  // ----- Counts ----------------------------------------------------------------------------------

  lemma {:induction false} ImageSize<T>(n: nat, g: nat -> T)
    requires forall i: nat, j: nat | i < j < n :: g(i) != g(j)
    ensures |set i: nat | i < n :: g(i)| == n
  {
    if n == 0 {
      assert (set i: nat | i < n :: g(i)) == {};
    } else {
      ImageSize(n - 1, g);
      assert (set i: nat | i < n :: g(i)) == (set i: nat | i < n - 1 :: g(i)) + {g(n - 1)};
    }
  }

  /** A set whose elements are `g(0)` to `g(n-1)`, all of them different. */
  lemma Numbered<T>(s: set<T>, n: nat, g: nat -> T)
    requires forall i: nat, j: nat | i < j < n :: g(i) != g(j)
    requires forall i: nat | i < n :: g(i) in s
    requires forall x | x in s :: exists i: nat :: i < n && g(i) == x
    ensures |s| == n
  {
    ImageSize(n, g);
    assert s == set i: nat | i < n :: g(i);
  }

  /** Place `j` in row `q`. */
  function InRow(h: nat, q: nat, j: nat): nat {
    q * h + j
  }

  lemma RowOf(h: nat, c: nat)
    requires h > 0
    ensures c % h < h && c == InRow(h, c / h, c % h)
  {
    ModBound(h, c);
  }

  lemma RowAt(h: nat, q: nat, j: nat, m: nat)
    requires j < h && q < m
    ensures InRow(h, q, j) / h == q && InRow(h, q, j) % h == j && InRow(h, q, j) < m * h
  {
    DivMod(h, q, j);
    Places(h, q, j, m);
  }

  lemma RowsDiffer(h: nat, q: nat, i: nat, j: nat)
    requires i != j
    ensures InRow(h, q, i) != InRow(h, q, j)
  {
  }

  lemma CoreInRow(h: nat, density: nat, a: nat, j: nat)
    requires h > 0 && a < 2 * h * h && j < h
    ensures CoreAgg(InRow(h, a % h, j), a) in FatTreeLinks(h, density)
  {
    ModBound(h, a);
    RowAt(h, a % h, j, h);
    CoreAggIff(h, density, InRow(h, a % h, j), a);
  }

  lemma CoreOfRow(h: nat, density: nat, a: nat, c: nat)
    requires h > 0 && a < 2 * h * h && CoreAgg(c, a) in FatTreeLinks(h, density)
    ensures c % h < h && InRow(h, a % h, c % h) == c
  {
    CoreAggIff(h, density, c, a);
    RowOf(h, c);
  }

  /** An aggregation switch is linked to k/2 core switches, */
  lemma CoreCount(h: nat, density: nat, a: nat, cores: set<nat>)
    requires h > 0 && a < 2 * h * h
    requires forall c :: c in cores <==> CoreAgg(c, a) in FatTreeLinks(h, density)
    ensures |cores| == h
  {
    hide FatTreeLinks, InRow;
    var g := (j: nat) => InRow(h, a % h, j);
    forall j: nat | j < h ensures g(j) in cores { CoreInRow(h, density, a, j); }
    forall c | c in cores ensures exists j: nat :: j < h && g(j) == c {
      CoreOfRow(h, density, a, c);
      assert g(c % h) == c;
    }
    forall i: nat, j: nat | i < j < h ensures g(i) != g(j) { RowsDiffer(h, a % h, i, j); }
    Numbered(cores, h, g);
  }

  lemma EdgeInRow(h: nat, density: nat, a: nat, j: nat)
    requires h > 0 && a < 2 * h * h && j < h
    ensures AggEdge(a, InRow(h, a / h, j)) in FatTreeLinks(h, density)
  {
    DivBound(h, a, 2 * h);
    RowAt(h, a / h, j, 2 * h);
    AggEdgeIff(h, density, a, InRow(h, a / h, j));
  }

  lemma EdgeOfRow(h: nat, density: nat, a: nat, e: nat)
    requires h > 0 && a < 2 * h * h && AggEdge(a, e) in FatTreeLinks(h, density)
    ensures e % h < h && InRow(h, a / h, e % h) == e
  {
    AggEdgeIff(h, density, a, e);
    RowOf(h, e);
  }

  /** and to k/2 edge switches. */
  lemma EdgeCount(h: nat, density: nat, a: nat, edges: set<nat>)
    requires h > 0 && a < 2 * h * h
    requires forall e :: e in edges <==> AggEdge(a, e) in FatTreeLinks(h, density)
    ensures |edges| == h
  {
    hide FatTreeLinks, InRow;
    var g := (j: nat) => InRow(h, a / h, j);
    forall j: nat | j < h ensures g(j) in edges { EdgeInRow(h, density, a, j); }
    forall e | e in edges ensures exists j: nat :: j < h && g(j) == e {
      EdgeOfRow(h, density, a, e);
      assert g(e % h) == e;
    }
    forall i: nat, j: nat | i < j < h ensures g(i) != g(j) { RowsDiffer(h, a / h, i, j); }
    Numbered(edges, h, g);
  }

  /** The path by way of core switch `c`. */
  function Via(h: nat, e: nat, f: nat, c: nat): (nat, nat, nat)
    requires h > 0
  {
    (e / h * h + c / h, c, f / h * h + c / h)
  }

  lemma PathIff(h: nat, density: nat, e: nat, f: nat, t: (nat, nat, nat))
    requires h > 0 && e < 2 * h * h && f < 2 * h * h
    ensures Path(h, density, e, t.0, t.1, t.2, f) <==> t.1 < h * h && t == Via(h, e, f, t.1)
  {
    hide Path;
    OnePathPerCore(h, density, e, t.0, t.1, t.2, f);
  }

  lemma ViaCore(h: nat, e: nat, f: nat, c: nat)
    requires h > 0
    ensures Via(h, e, f, c).1 == c
  {
  }

  /** Between edge switches of different pods, as between any two, there are exactly (k/2)^2 paths. */
  lemma PathCount(h: nat, density: nat, e: nat, f: nat, paths: set<(nat, nat, nat)>)
    requires h > 0 && e < 2 * h * h && f < 2 * h * h
    requires forall t :: t in paths <==> Path(h, density, e, t.0, t.1, t.2, f)
    ensures |paths| == h * h
  {
    hide Path, Via;
    var g, n: nat := (c: nat) => Via(h, e, f, c), h * h;
    forall c: nat | c < n ensures g(c) in paths {
      ViaCore(h, e, f, c);
      PathIff(h, density, e, f, g(c));
    }
    forall t | t in paths ensures exists c: nat :: c < n && g(c) == t {
      PathIff(h, density, e, f, t);
      assert g(t.1) == t;
    }
    forall i: nat, j: nat | i < j < n ensures g(i) != g(j) {
      ViaCore(h, e, f, i);
      ViaCore(h, e, f, j);
    }
    Numbered(paths, n, g);
  }
}
