/** The cross-reference memory as it is: all lists share two growing arrays of numbers and links, and are
    changed in place. */
module XrefMemory {
  import opened Wrappers
  import opened LinkedLists
  import opened XrefLists

  /** `xmem` (the fields `num` and `xlink` of its entries) and the `xref` of every name. */
  datatype Memory = Memory(num: seq<nat>, xlink: seq<nat>, head: seq<nat>)

  /** The entries `nodes[p]` of every name `p`; each belongs to one name only. */
  ghost predicate Holds(m: Memory, nodes: seq<seq<nat>>, owner: seq<nat>) {
    && |m.num| == |m.xlink| == |owner| > 0 && m.num[0] == 0 && |m.head| == |nodes|
    && forall p | 0 <= p < |nodes| :: ListAt(m, nodes[p], owner, p)
  }

  ghost predicate ListAt(m: Memory, l: seq<nat>, owner: seq<nat>, p: nat) {
    && p < |m.head| && Chain(m.xlink, m.head[p], l) && Distinct(l)
    && forall i | 0 <= i < |l| :: 0 < l[i] < |owner| && owner[l[i]] == p
  }

  /** The numbers of a list. */
  ghost function Nums(num: seq<nat>, l: seq<nat>): (n: seq<nat>)
    requires forall i | 0 <= i < |l| :: l[i] < |num|
    ensures |n| == |l|
  {
    seq(|l|, i requires 0 <= i < |l| => num[l[i]])
  }

  /** The cross references of name `p`. */
  ghost function Refs(m: Memory, nodes: seq<seq<nat>>, owner: seq<nat>, p: nat): seq<nat>
    requires Holds(m, nodes, owner) && p < |nodes|
  {
    assert ListAt(m, nodes[p], owner, p);
    Nums(m.num, nodes[p])
  }

  /** All lists but that of `p` are the same. */
  ghost predicate OthersKept(m: Memory, nodes: seq<seq<nat>>, owner: seq<nat>, m': Memory, nodes': seq<seq<nat>>, owner': seq<nat>, p: nat)
    requires Holds(m, nodes, owner) && Holds(m', nodes', owner')
  {
    |nodes'| == |nodes| && forall q | 0 <= q < |nodes| && q != p :: Refs(m', nodes', owner', q) == Refs(m, nodes, owner, q)
  }

  lemma OthersTrans(m: Memory, nodes: seq<seq<nat>>, owner: seq<nat>, m': Memory, nodes': seq<seq<nat>>, owner': seq<nat>,
                    m'': Memory, nodes'': seq<seq<nat>>, owner'': seq<nat>, p: nat)
    requires Holds(m, nodes, owner) && Holds(m', nodes', owner') && Holds(m'', nodes'', owner'')
    requires OthersKept(m, nodes, owner, m', nodes', owner', p) && OthersKept(m', nodes', owner', m'', nodes'', owner'', p)
    ensures OthersKept(m, nodes, owner, m'', nodes'', owner'', p)
  {
    hide Refs, Holds;
  }

  // ----- The changes of memory -------------------------------------------------------------------

  /** A new entry `c` with link `link`. */
  function Grow(m: Memory, c: nat, link: nat): Memory {
    m.(num := m.num + [c], xlink := m.xlink + [link])
  }

  lemma ListGrown(m: Memory, l: seq<nat>, owner: seq<nat>, q: nat, c: nat, link: nat, o: nat)
    requires |m.num| == |m.xlink| == |owner| && ListAt(m, l, owner, q)
    ensures ListAt(Grow(m, c, link), l, owner + [o], q)
    ensures Nums(Grow(m, c, link).num, l) == Nums(m.num, l)
  {
    ChainFrame(m.xlink, m.xlink + [link], m.head[q], l);
  }

  /** A new first entry of list `p`. */
  function Front(m: Memory, p: nat, c: nat): Memory
    requires p < |m.head|
  {
    var g := Grow(m, c, m.head[p]);
    g.(head := m.head[p := |m.num|])
  }

  lemma FrontList(m: Memory, l: seq<nat>, owner: seq<nat>, p: nat, c: nat)
    requires |m.num| == |m.xlink| == |owner| > 0 && ListAt(m, l, owner, p)
    ensures ListAt(Front(m, p, c), [|m.num|] + l, owner + [p], p)
    ensures Nums(Front(m, p, c).num, [|m.num|] + l) == [c] + Nums(m.num, l)
  {
    var m', e := Front(m, p, c), |m.num|;
    ListGrown(m, l, owner, p, c, m.head[p], p);
    assert ([e] + l)[1..] == l;
    assert Chain(m'.xlink, m'.xlink[e], l);
    DistinctCons(l, e);
    assert Nums(m'.num, [e] + l) == [c] + Nums(m'.num, l);
  }

  lemma FrontHolds(m: Memory, nodes: seq<seq<nat>>, owner: seq<nat>, p: nat, c: nat)
    requires Holds(m, nodes, owner) && p < |nodes|
    ensures var (m', nodes', owner') := (Front(m, p, c), nodes[p := [|m.num|] + nodes[p]], owner + [p]);
            && Holds(m', nodes', owner')
            && Refs(m', nodes', owner', p) == [c] + Refs(m, nodes, owner, p)
            && OthersKept(m, nodes, owner, m', nodes', owner', p)
  {
    var m', nodes', owner' := Front(m, p, c), nodes[p := [|m.num|] + nodes[p]], owner + [p];
    FrontList(m, nodes[p], owner, p, c);
    forall q | 0 <= q < |nodes| && q != p
      ensures ListAt(m', nodes'[q], owner', q) && Nums(m'.num, nodes'[q]) == Nums(m.num, nodes[q])
    {
      ListGrown(m, nodes[q], owner, q, c, m.head[p], p);
      hide Chain, Distinct;
    }
    hide ListAt, Nums;
  }

  /** Entry `i` of list `p` gets number `c`. */
  lemma SetHolds(m: Memory, nodes: seq<seq<nat>>, owner: seq<nat>, p: nat, i: nat, c: nat)
    requires Holds(m, nodes, owner) && p < |nodes| && i < |nodes[p]|
    ensures nodes[p][i] < |m.num|
    ensures var m' := m.(num := m.num[nodes[p][i] := c]);
            && Holds(m', nodes, owner)
            && Refs(m', nodes, owner, p) == Refs(m, nodes, owner, p)[i := c]
            && OthersKept(m, nodes, owner, m', nodes, owner, p)
  {
    assert ListAt(m, nodes[p], owner, p);
    var x := nodes[p][i];
    var m' := m.(num := m.num[x := c]);
    assert Nums(m'.num, nodes[p]) == Nums(m.num, nodes[p])[i := c];
    forall q | 0 <= q < |nodes| ensures ListAt(m', nodes[q], owner, q) {
      assert ListAt(m, nodes[q], owner, q);
    }
    forall q | 0 <= q < |nodes| && q != p ensures Nums(m'.num, nodes[q]) == Nums(m.num, nodes[q]) {
      assert ListAt(m, nodes[q], owner, q);
    }
  }

  /** The entry in position `i` of a list, 0 at its end. */
  ghost function EntryAt(l: seq<nat>, i: nat): nat
    requires i <= |l|
  {
    if i < |l| then l[i] else 0
  }

  /** A new entry of list `p` behind its entry `i` - 1. */
  function Behind(m: Memory, x: nat, q: nat, c: nat): Memory
    requires x < |m.xlink|
  {
    Memory(m.num + [c], (m.xlink + [q])[x := |m.num|], m.head)
  }

  lemma BehindList(m: Memory, l: seq<nat>, owner: seq<nat>, p: nat, i: nat, c: nat)
    requires |m.num| == |m.xlink| == |owner| > 0 && ListAt(m, l, owner, p) && 0 < i <= |l|
    ensures l[i - 1] < |m.xlink|
    ensures var m', l' := Behind(m, l[i - 1], EntryAt(l, i), c), l[..i] + [|m.num|] + l[i..];
            && ListAt(m', l', owner + [p], p)
            && Nums(m'.num, l') == Nums(m.num, l)[..i] + [c] + Nums(m.num, l)[i..]
  {
    ChainInsert(m.xlink, m.head[p], l, i);
    hide Chain;
    BehindNums(m.num, l, i, c);
    BehindDistinct(l, i, |m.num|);
  }

  lemma BehindNums(num: seq<nat>, l: seq<nat>, i: nat, c: nat)
    requires i <= |l| && forall j | 0 <= j < |l| :: l[j] < |num|
    ensures forall j | 0 <= j < |l[..i] + [|num|] + l[i..]| :: (l[..i] + [|num|] + l[i..])[j] < |num + [c]|
    ensures Nums(num + [c], l[..i] + [|num|] + l[i..]) == Nums(num, l)[..i] + [c] + Nums(num, l)[i..]
  {
    var l' := l[..i] + [|num|] + l[i..];
    assert forall j | 0 <= j < |l'| :: l'[j] == if j < i then l[j] else if j == i then |num| else l[j - 1];
  }

  lemma BehindDistinct(l: seq<nat>, i: nat, e: nat)
    requires i <= |l| && Distinct(l) && forall j | 0 <= j < |l| :: l[j] != e
    ensures Distinct(l[..i] + [e] + l[i..])
  {
    var l' := l[..i] + [e] + l[i..];
    assert forall j | 0 <= j < |l'| :: l'[j] == if j < i then l[j] else if j == i then e else l[j - 1];
  }

  lemma BehindHolds(m: Memory, nodes: seq<seq<nat>>, owner: seq<nat>, p: nat, i: nat, c: nat)
    requires Holds(m, nodes, owner) && p < |nodes| && 0 < i <= |nodes[p]|
    ensures nodes[p][i - 1] < |m.xlink|
    ensures var l := nodes[p];
            var m', nodes', owner' := Behind(m, l[i - 1], EntryAt(l, i), c), nodes[p := l[..i] + [|m.num|] + l[i..]], owner + [p];
            && Holds(m', nodes', owner')
            && Refs(m', nodes', owner', p) == Refs(m, nodes, owner, p)[..i] + [c] + Refs(m, nodes, owner, p)[i..]
            && OthersKept(m, nodes, owner, m', nodes', owner', p)
  {
    var l := nodes[p];
    BehindList(m, l, owner, p, i, c);
    var x, q := l[i - 1], EntryAt(l, i);
    var m', nodes', owner' := Behind(m, x, q, c), nodes[p := l[..i] + [|m.num|] + l[i..]], owner + [p];
    assert owner[x] == p by { assert ListAt(m, l, owner, p); }
    forall r | 0 <= r < |nodes| && r != p
      ensures ListAt(m', nodes'[r], owner', r) && Nums(m'.num, nodes'[r]) == Nums(m.num, nodes[r])
    {
      OtherBehind(m, nodes[r], owner, r, x, q, c, p);
    }
    hide ListAt, Nums;
  }

  lemma OtherBehind(m: Memory, l: seq<nat>, owner: seq<nat>, r: nat, x: nat, q: nat, c: nat, p: nat)
    requires |m.num| == |m.xlink| == |owner| && ListAt(m, l, owner, r) && x < |owner| && owner[x] == p != r
    ensures ListAt(Behind(m, x, q, c), l, owner + [p], r) && Nums(Behind(m, x, q, c).num, l) == Nums(m.num, l)
  {
    ChainFrame(m.xlink, Behind(m, x, q, c).xlink, m.head[r], l);
    hide Chain, Distinct;
  }

  /** Memory without entry `i` of list `p`. */
  ghost function Unlinked(m: Memory, p: nat, l: seq<nat>, i: nat): Memory
    requires i < |l| && p < |m.head| && (i > 0 ==> l[i - 1] < |m.xlink|)
  {
    if i == 0 then m.(head := m.head[p := EntryAt(l, 1)])
    else m.(xlink := m.xlink[l[i - 1] := EntryAt(l, i + 1)])
  }

  lemma UnlinkedList(m: Memory, l: seq<nat>, owner: seq<nat>, p: nat, i: nat)
    requires |m.num| == |m.xlink| == |owner| > 0 && ListAt(m, l, owner, p) && i < |l|
    ensures ListAt(Unlinked(m, p, l, i), l[..i] + l[i + 1..], owner, p)
    ensures Nums(m.num, l[..i] + l[i + 1..]) == Nums(m.num, l)[..i] + Nums(m.num, l)[i + 1..]
  {
    var r := l[..i] + l[i + 1..];
    assert forall j | 0 <= j < |r| :: r[j] == if j < i then l[j] else l[j + 1];
    if i == 0 {
      ChainLink(m.xlink, m.head[p], l, 0);
      assert r == l[1..];
    } else {
      ChainDelete(m.xlink, m.head[p], l, i);
    }
  }

  lemma UnlinkedHolds(m: Memory, nodes: seq<seq<nat>>, owner: seq<nat>, p: nat, i: nat)
    requires Holds(m, nodes, owner) && p < |nodes| && i < |nodes[p]|
    ensures i > 0 ==> nodes[p][i - 1] < |m.xlink|
    ensures var m', nodes' := Unlinked(m, p, nodes[p], i), nodes[p := nodes[p][..i] + nodes[p][i + 1..]];
            && Holds(m', nodes', owner) && i < |Refs(m, nodes, owner, p)|
            && Refs(m', nodes', owner, p) == Refs(m, nodes, owner, p)[..i] + Refs(m, nodes, owner, p)[i + 1..]
            && OthersKept(m, nodes, owner, m', nodes', owner, p)
  {
    var l := nodes[p];
    assert ListAt(m, l, owner, p);
    var m', nodes' := Unlinked(m, p, l, i), nodes[p := l[..i] + l[i + 1..]];
    UnlinkedList(m, l, owner, p, i);
    forall q | 0 <= q < |nodes| && q != p ensures ListAt(m', nodes'[q], owner, q) {
      assert ListAt(m, nodes[q], owner, q);
      ChainFrame(m.xlink, m'.xlink, m.head[q], nodes[q]);
    }
    hide ListAt, Nums;
  }

  // ----- Looking for a place ---------------------------------------------------------------------

  lemma NextEntry(m: Memory, nodes: seq<seq<nat>>, owner: seq<nat>, p: nat, i: nat)
    requires Holds(m, nodes, owner) && p < |nodes| && i < |nodes[p]|
    ensures 0 < nodes[p][i] < |m.num| == |m.xlink| && m.xlink[nodes[p][i]] == EntryAt(nodes[p], i + 1)
    ensures |Refs(m, nodes, owner, p)| == |nodes[p]| && m.num[nodes[p][i]] == Refs(m, nodes, owner, p)[i]
  {
    assert ListAt(m, nodes[p], owner, p);
    ChainLink(m.xlink, m.head[p], nodes[p], i);
  }

  lemma FirstEntry(m: Memory, nodes: seq<seq<nat>>, owner: seq<nat>, p: nat)
    requires Holds(m, nodes, owner) && p < |nodes|
    ensures |m.head| == |nodes| && m.head[p] == EntryAt(nodes[p], 0) && |Refs(m, nodes, owner, p)| == |nodes[p]|
    ensures forall i | 0 <= i < |nodes[p]| :: 0 < nodes[p][i] < |m.num|
    ensures Distinct(nodes[p])
  {
    assert ListAt(m, nodes[p], owner, p);
  }

  /** `StopsAt` goes on behind an entry that it passes. */
  lemma StopsLater(l: seq<nat>, m: nat, i: nat)
    requires i < |l| && !(l[i] == m || m == l[i] + DEF_FLAG) && !(l[i] >= DEF_FLAG && l[i] < m)
    ensures StopsAt(l[i..], m) == (StopsAt(l[i + 1..], m).0 + 1, StopsAt(l[i + 1..], m).1)
  {
    assert l[i..][1..] == l[i + 1..];
  }

  lemma StopsHere(l: seq<nat>, m: nat, i: nat)
    requires i <= |l|
    ensures i == |l| ==> StopsAt(l[i..], m) == (0, false)
    ensures i < |l| && (l[i] == m || m == l[i] + DEF_FLAG) ==> StopsAt(l[i..], m) == (0, true)
    ensures i < |l| && !(l[i] == m || m == l[i] + DEF_FLAG) && l[i] >= DEF_FLAG && l[i] < m ==> StopsAt(l[i..], m) == (0, false)
  {
  }

  /** Every list is what it should be; `ids` are the names of identifiers, the others those of sections. */
  ghost predicate AllTidy(m: Memory, nodes: seq<seq<nat>>, owner: seq<nat>, ids: set<nat>)
    requires Holds(m, nodes, owner)
  {
    forall q: nat | q < |nodes| :: XrefLists.Tidy(Refs(m, nodes, owner, q), q in ids)
  }

  ghost predicate AllUpToDate(m: Memory, nodes: seq<seq<nat>>, owner: seq<nat>, ids: set<nat>, s: nat)
    requires Holds(m, nodes, owner)
  {
    forall q: nat | q < |nodes| :: XrefLists.UpToDate(Refs(m, nodes, owner, q), q in ids, s)
  }

  /** The lists are those that `f` tells. */
  ghost predicate ListsAre(m: Memory, nodes: seq<seq<nat>>, owner: seq<nat>, f: nat -> seq<nat>)
    requires Holds(m, nodes, owner)
  {
    forall q: nat | q < |nodes| :: Refs(m, nodes, owner, q) == f(q)
  }

  lemma ListsNext(m: Memory, nodes: seq<seq<nat>>, owner: seq<nat>, m': Memory, nodes': seq<seq<nat>>, owner': seq<nat>,
                  p: nat, f: nat -> seq<nat>, g: nat -> seq<nat>)
    requires Holds(m, nodes, owner) && Holds(m', nodes', owner') && p < |nodes| && ListsAre(m, nodes, owner, f)
    requires OthersKept(m, nodes, owner, m', nodes', owner', p) && Refs(m', nodes', owner', p) == g(p)
    requires forall q: nat | q != p :: g(q) == f(q)
    ensures ListsAre(m', nodes', owner', g) && |nodes'| == |nodes|
  {
    hide Holds, Refs;
  }

  /** Whether the order is kept depends on the only list that changes. */
  lemma TidyIff(m: Memory, nodes: seq<seq<nat>>, owner: seq<nat>, m': Memory, nodes': seq<seq<nat>>, owner': seq<nat>,
                p: nat, ids: set<nat>)
    requires Holds(m, nodes, owner) && Holds(m', nodes', owner') && p < |nodes| && AllTidy(m, nodes, owner, ids)
    requires OthersKept(m, nodes, owner, m', nodes', owner', p)
    ensures AllTidy(m', nodes', owner', ids) <==> XrefLists.Tidy(Refs(m', nodes', owner', p), p in ids)
  {
    hide Holds, Refs, XrefLists.Tidy;
  }

  lemma UpToDateIff(m: Memory, nodes: seq<seq<nat>>, owner: seq<nat>, m': Memory, nodes': seq<seq<nat>>, owner': seq<nat>,
                    p: nat, ids: set<nat>, s: nat)
    requires Holds(m, nodes, owner) && Holds(m', nodes', owner') && p < |nodes| && AllUpToDate(m, nodes, owner, ids, s)
    requires OthersKept(m, nodes, owner, m', nodes', owner', p)
    ensures AllUpToDate(m', nodes', owner', ids, s) <==> XrefLists.UpToDate(Refs(m', nodes', owner', p), p in ids, s)
  {
    hide Holds, Refs, XrefLists.UpToDate;
  }

  lemma ListTidy(m: Memory, nodes: seq<seq<nat>>, owner: seq<nat>, p: nat, ids: set<nat>)
    requires Holds(m, nodes, owner) && p < |nodes| && AllTidy(m, nodes, owner, ids)
    ensures XrefLists.Tidy(Refs(m, nodes, owner, p), p in ids)
  {
    hide Holds, Refs, XrefLists.Tidy;
  }

  lemma ListUpToDate(m: Memory, nodes: seq<seq<nat>>, owner: seq<nat>, p: nat, ids: set<nat>, s: nat)
    requires Holds(m, nodes, owner) && p < |nodes| && AllUpToDate(m, nodes, owner, ids, s)
    ensures XrefLists.UpToDate(Refs(m, nodes, owner, p), p in ids, s)
  {
    hide Holds, Refs, XrefLists.UpToDate;
  }

  lemma AllLater(m: Memory, nodes: seq<seq<nat>>, owner: seq<nat>, ids: set<nat>, s: nat)
    requires Holds(m, nodes, owner) && AllUpToDate(m, nodes, owner, ids, s)
    ensures AllUpToDate(m, nodes, owner, ids, s + 1) && AllTidy(m, nodes, owner, ids)
  {
    forall q: nat | q < |nodes|
      ensures XrefLists.UpToDate(Refs(m, nodes, owner, q), q in ids, s + 1) && XrefLists.Tidy(Refs(m, nodes, owner, q), q in ids)
    {
      ListUpToDate(m, nodes, owner, q, ids, s);
      LaterUpToDate(Refs(m, nodes, owner, q), q in ids, s);
    }
    hide Holds, Refs, XrefLists.UpToDate, XrefLists.Tidy;
  }

  class Xrefs {
    const maxRefs: nat
    var num: seq<nat>
    var xlink: seq<nat>
    var head: seq<nat>
    var sectionCount: nat
    var xrefSwitch: nat
    var sectionXrefSwitch: nat
    ghost var nodes: seq<seq<nat>>
    ghost var owner: seq<nat>
    /** The names of identifiers; the other names are those of sections. */
    ghost const ids: set<nat>

    ghost function M(): Memory
      reads `num, `xlink, `head
    {
      Memory(num, xlink, head)
    }

    ghost predicate Valid()
      reads `num, `xlink, `head, `nodes, `owner
    {
      Holds(M(), nodes, owner)
    }

    /** The cross references of name `p`. */
    ghost function List(p: nat): seq<nat>
      requires Valid() && p < |nodes|
      reads `num, `xlink, `head, `nodes, `owner
    {
      Refs(M(), nodes, owner, p)
    }

    /** The lists of other names have not changed. */
    twostate predicate OnlyChanges(p: nat)
      requires old(Valid()) && Valid()
      reads this
    {
      OthersKept(old(M()), old(nodes), old(owner), M(), nodes, owner, p)
    }

    /** The list of every identifier is strictly decreasing, and that of every section name grouped. */
    ghost predicate Tidy()
      requires Valid()
      reads `num, `xlink, `head, `nodes, `owner
    {
      AllTidy(M(), nodes, owner, ids)
    }

    /** In phase one, no entry is newer than the current section either. */
    ghost predicate UpToDate()
      requires Valid()
      reads `num, `xlink, `head, `nodes, `owner, `sectionCount
    {
      AllUpToDate(M(), nodes, owner, ids, sectionCount)
    }

    /** The section and the flag with which `new_xref` and `underline_xref` are called. */
    ghost predicate InSection()
      reads `sectionCount, `xrefSwitch
    {
      0 < sectionCount < CITE_FLAG && (xrefSwitch == 0 || xrefSwitch == DEF_FLAG)
    }

    /** The next section begins. */
    method NextSection()
      requires Valid()
      modifies `sectionCount
      ensures sectionCount == old(sectionCount) + 1 && (old(UpToDate()) ==> UpToDate())
    {
      hide Refs, Holds, AllUpToDate, AllTidy;
      if UpToDate() { AllLater(M(), nodes, owner, ids, sectionCount); }
      sectionCount := sectionCount + 1;
    }

    /** Phase two begins: sections are counted again, and the lists are there already. */
    method StartPhaseTwo()
      requires Valid()
      modifies `sectionCount
      ensures sectionCount == 0 && (old(UpToDate()) ==> Tidy())
    {
      hide Refs, Holds, AllUpToDate, AllTidy;
      if UpToDate() { AllLater(M(), nodes, owner, ids, sectionCount); }
      sectionCount := 0;
    }

    constructor (names: nat, maxRefs: nat, ghost ids: set<nat>)
      ensures this.maxRefs == maxRefs && this.ids == ids && num == [0]
      ensures Valid() && UpToDate() && |nodes| == names && sectionCount == 0 && xrefSwitch == 0 && sectionXrefSwitch == 0
      ensures forall p: nat | p < names :: List(p) == []
    {
      this.maxRefs, this.ids := maxRefs, ids;
      num, xlink, head := [0], [0], seq(names, _ => 0);
      nodes, owner := seq(names, _ => []), [0];
      sectionCount, xrefSwitch, sectionXrefSwitch := 0, 0, 0;
    }

    /** A new entry at the front of list `p`. */
    method Prepend(p: nat, c: nat) returns (ok: bool)
      requires Valid() && p < |nodes|
      modifies `num, `xlink, `head, `nodes, `owner
      ensures Valid() && OnlyChanges(p) && (ok <==> |old(num)| < maxRefs)
      ensures List(p) == if ok then [c] + old(List(p)) else old(List(p))
      ensures |num| == if ok then |old(num)| + 1 else |old(num)|
      ensures ok ==> nodes == old(nodes)[p := [|old(num)|] + old(nodes[p])] && p < |head| && head[p] == |old(num)|
      ensures !ok ==> M() == old(M()) && nodes == old(nodes)
    {
      hide ListAt;
      ok := |num| - 1 < maxRefs - 1;
      if ok {
        FrontHolds(M(), nodes, owner, p, c);
        nodes, owner := nodes[p := [|num|] + nodes[p]], owner + [p];
        head, num, xlink := head[p := |num|], num + [c], xlink + [head[p]];
      }
    }

    /** Entry `i` of list `p`, which is entry `x` of memory, gets number `c`. */
    method SetNum(p: nat, ghost i: nat, x: nat, c: nat)
      requires Valid() && p < |nodes| && i < |nodes[p]| && x == nodes[p][i]
      modifies `num
      ensures Valid() && OnlyChanges(p) && List(p) == old(List(p))[i := c]
      ensures x < |old(num)| && num == old(num)[x := c]
    {
      SetHolds(M(), nodes, owner, p, i, c);
      num := num[x := c];
    }

    /** List `l` becomes `r` if that takes no new entry, or if there is room for one; or else it stays. */
    ghost predicate Added(ok: bool, l: seq<nat>, r: seq<nat>, used: nat, now: seq<nat>)
      reads `num
    {
      && (ok <==> |r| == |l| || used < maxRefs)
      && now == (if ok then r else l) && |num| == used + |now| - |l|
    }

    /** `new_xref`; `ignored` says whether the name is of a kind that is not indexed by itself. */
    method NewXref(p: nat, ignored: bool) returns (ok: bool)
      requires Valid() && p < |nodes|
      modifies `num, `xlink, `head, `nodes, `owner, `xrefSwitch
      ensures Valid() && OnlyChanges(p)
      ensures var l, m := old(List(p)), sectionCount + old(xrefSwitch);
              if ignored && old(xrefSwitch) == 0 then ok && List(p) == l && num == old(num) && xrefSwitch == 0
              else xrefSwitch == 0 && Added(ok, l, XrefLists.NewXref(l, m), |old(num)|, List(p))
      ensures p in ids && old(UpToDate() && InSection()) ==> UpToDate()
    {
      hide Refs, Holds, Decreasing, AllUpToDate, OthersKept;
      ghost var tidy, l, m := UpToDate() && InSection(), List(p), sectionCount + xrefSwitch;
      ghost var m0, nodes0, owner0 := M(), nodes, owner;
      ok := RecordXref(p, ignored);
      if p in ids && tidy {
        ListUpToDate(m0, nodes0, owner0, p, ids, sectionCount);
        NewXrefKeeps(l, m);
        UpToDateIff(m0, nodes0, owner0, M(), nodes, owner, p, ids, sectionCount);
      }
    }

    method RecordXref(p: nat, ignored: bool) returns (ok: bool)
      requires Valid() && p < |nodes|
      modifies `num, `xlink, `head, `nodes, `owner, `xrefSwitch
      ensures Valid() && OnlyChanges(p)
      ensures var l, m := old(List(p)), sectionCount + old(xrefSwitch);
              if ignored && old(xrefSwitch) == 0 then ok && List(p) == l && num == old(num) && xrefSwitch == 0
              else xrefSwitch == 0 && Added(ok, l, XrefLists.NewXref(l, m), |old(num)|, List(p))
    {
      hide ListAt, Refs;
      ok := true;
      if ignored && xrefSwitch == 0 { return; }
      FirstEntry(M(), nodes, owner, p);
      var m := sectionCount + xrefSwitch;
      xrefSwitch := 0;
      var q := head[p];
      if q != 0 {
        NextEntry(M(), nodes, owner, p, 0);
        var n := num[q];
        if n == m || n == m + DEF_FLAG {
          return;
        } else if m == n + DEF_FLAG {
          SetNum(p, 0, q, m);
          assert List(p) == [m] + old(List(p))[1..];
          return;
        }
      }
      ok := Prepend(p, m);
    }

    // ----- underline_xref ------------------------------------------------------------------------

    /** The entry at which `underline_xref` stops, and whether it is done with it. */
    method FindUnderlined(p: nat, m: nat) returns (q: nat, done: bool, ghost i: nat)
      requires Valid() && p < |nodes|
      modifies `num
      ensures Valid() && OnlyChanges(p) && i <= |nodes[p]| == |List(p)| && q == EntryAt(nodes[p], i) && |num| == |old(num)|
      ensures StopsAt(old(List(p)), m) == (i, done)
      ensures List(p) == if done then old(List(p))[i := m] else old(List(p))
    {
      hide ListAt, Refs, StopsAt;
      FirstEntry(M(), nodes, owner, p);
      ghost var l := List(p);
      i, done, q := 0, false, head[p];
      assert l[0..] == l;
      while q != 0
        invariant i <= |nodes[p]| == |l| && q == EntryAt(nodes[p], i) && num == old(num) && !done
        invariant StopsAt(l, m) == (i + StopsAt(l[i..], m).0, StopsAt(l[i..], m).1)
        decreases |l| - i
      {
        NextEntry(M(), nodes, owner, p, i);
        StopsHere(l, m, i);
        var n := num[q];
        if n == m {
          assert l[i := m] == l;
          return q, true, i;
        } else if m == n + DEF_FLAG {
          SetNum(p, i, q, m);
          return q, true, i;
        } else if n >= DEF_FLAG && n < m {
          return q, false, i;
        }
        StopsLater(l, m, i);
        i := i + 1;
        q := xlink[q];
      }
      StopsHere(l, m, i);
    }

    /** One number moves forward from the entry behind `r`. */
    method MoveNumber(p: nat, r: nat, ghost l: seq<nat>, ghost j: nat) returns (next: nat)
      requires Valid() && p < |nodes| && j + 1 < |nodes[p]| && r == nodes[p][j] && Shifted(l, List(p), j)
      modifies `num
      ensures Valid() && OnlyChanges(p) && Shifted(l, List(p), j + 1) && next == nodes[p][j + 1] && |num| == |old(num)|
    {
      hide ListAt, Refs, Shifted, Holds;
      NextEntry(M(), nodes, owner, p, j);
      NextEntry(M(), nodes, owner, p, j + 1);
      ghost var was := List(p);
      next := xlink[r];
      SetNum(p, j, r, num[next]);
      ShiftedNext(l, was, j);
    }

    /** Numbers move forward up to the entry in front of `q`. */
    method MoveNumbers(p: nat, r0: nat, q: nat, ghost l: seq<nat>, ghost i: nat) returns (r: nat)
      requires Valid() && p < |nodes| && i < |nodes[p]| && r0 == nodes[p][0] && q == EntryAt(nodes[p], i + 1)
      requires Shifted(l, List(p), 0)
      modifies `num
      ensures Valid() && OnlyChanges(p) && Shifted(l, List(p), i) && r == nodes[p][i] && |num| == |old(num)|
    {
      hide ListAt, Refs, Shifted, Holds, OthersKept;
      ghost var m0, ls, j := M(), nodes[p], 0;
      r := r0;
      FirstEntry(M(), nodes, owner, p);
      NextEntry(M(), nodes, owner, p, 0);
      OthersSelf(M(), nodes, owner, p);
      while xlink[r] != q
        invariant Valid() && j <= i && r == ls[j] < |xlink| && xlink[r] == EntryAt(ls, j + 1)
        invariant OthersKept(m0, nodes, owner, M(), nodes, owner, p) && Shifted(l, List(p), j) && |num| == |old(num)|
        decreases i - j
      {
        ghost var m1 := M();
        r := MoveNumber(p, r, l, j);
        OthersTrans(m0, nodes, owner, m1, nodes, owner, M(), nodes, owner, p);
        j := j + 1;
        NextEntry(M(), nodes, owner, p, j);
      }
      SameEntry(ls, i, j);
    }

    /** A new first entry, after which the numbers before `q` move forward and make room for `m`. */
    method InsertBefore(p: nat, q: nat, m: nat, ghost i: nat) returns (ok: bool)
      requires Valid() && p < |nodes| && i <= |nodes[p]| && q == EntryAt(nodes[p], i)
      modifies `num, `xlink, `head, `nodes, `owner
      ensures Valid() && OnlyChanges(p) && (ok <==> |old(num)| < maxRefs) && |old(List(p))| >= i
      ensures List(p) == if ok then old(List(p))[..i] + [m] + old(List(p))[i..] else old(List(p))
      ensures |num| == if ok then |old(num)| + 1 else |old(num)|
    {
      hide ListAt, Refs, Holds, OthersKept, Shifted;
      ghost var m0, nodes0, owner0, l := M(), nodes, owner, List(p);
      FirstEntry(M(), nodes, owner, p);
      ok := Prepend(p, 0);
      if !ok { return; }
      ghost var m1 := M();
      assert nodes[p][1..] == nodes0[p];
      ShiftedFirst(l, List(p));
      var r := MoveNumbers(p, head[p], q, l, i);
      ShiftedDone(l, List(p), i, m);
      OthersTrans(m0, nodes0, owner0, m1, nodes, owner, M(), nodes, owner, p);
      ghost var m2 := M();
      SetNum(p, i, r, m);
      OthersTrans(m0, nodes0, owner0, m2, nodes, owner, M(), nodes, owner, p);
    }

    /** `underline_xref`: the lists stay in order exactly if the list was safe.  It is called in phase two, where
        there may be entries for later sections. */
    method UnderlineXref(p: nat) returns (ok: bool)
      requires Valid() && p < |nodes|
      modifies `num, `xlink, `head, `nodes, `owner
      ensures Valid() && OnlyChanges(p)
      ensures Added(ok, old(List(p)), Underline(old(List(p)), sectionCount + xrefSwitch), |old(num)|, List(p))
      ensures p in ids && old(Tidy() && InSection()) && xrefSwitch == DEF_FLAG ==>
                IdList(old(List(p))) && (ok ==> (Tidy() <==> Safe(old(List(p)), sectionCount)))
    {
      hide Refs, Holds, Decreasing, AllTidy, OthersKept, Safe, Underline;
      ghost var tidy, l, m := Tidy() && InSection() && xrefSwitch == DEF_FLAG, List(p), sectionCount + xrefSwitch;
      ghost var m0, nodes0, owner0 := M(), nodes, owner;
      ok := Underlined(p);
      if p in ids && tidy {
        ListTidy(m0, nodes0, owner0, p, ids);
        if ok {
          UnderlineKeepsIff(l, m);
          TidyIff(m0, nodes0, owner0, M(), nodes, owner, p, ids);
        }
      }
    }

    method Underlined(p: nat) returns (ok: bool)
      requires Valid() && p < |nodes|
      modifies `num, `xlink, `head, `nodes, `owner
      ensures Valid() && OnlyChanges(p)
      ensures Added(ok, old(List(p)), Underline(old(List(p)), sectionCount + xrefSwitch), |old(num)|, List(p))
    {
      hide Refs, Holds, OthersKept, StopsAt;
      var m := sectionCount + xrefSwitch;
      ghost var m0, nodes0, owner0 := M(), nodes, owner;
      var q, done, i := FindUnderlined(p, m);
      ok := true;
      if !done {
        ghost var m1, nodes1, owner1 := M(), nodes, owner;
        ok := InsertBefore(p, q, m, i);
        OthersTrans(m0, nodes0, owner0, m1, nodes1, owner1, M(), nodes, owner, p);
      }
    }

    // ----- new_section_xref and set_file_flag ----------------------------------------------------

    /** A new entry behind entry `i` - 1 of list `p`, which is entry `r` of memory. */
    method InsertBehind(p: nat, r: nat, q: nat, c: nat, ghost i: nat) returns (ok: bool)
      requires Valid() && p < |nodes| && 0 < i <= |nodes[p]| && r == nodes[p][i - 1] && q == EntryAt(nodes[p], i)
      modifies `num, `xlink, `nodes, `owner
      ensures Valid() && OnlyChanges(p) && (ok <==> |old(num)| < maxRefs) && (!ok ==> num == old(num))
      ensures |old(List(p))| >= i
      ensures List(p) == if ok then old(List(p))[..i] + [c] + old(List(p))[i..] else old(List(p))
      ensures |num| == if ok then |old(num)| + 1 else |old(num)|
    {
      FirstEntry(M(), nodes, owner, p);
      hide ListAt, Refs;
      ok := |num| - 1 < maxRefs - 1;
      if ok {
        BehindHolds(M(), nodes, owner, p, i, c);
        nodes, owner := nodes[p := nodes[p][..i] + [|num|] + nodes[p][i..]], owner + [p];
        num, xlink := num + [c], (xlink + [q])[r := |num|];
      }
    }

    /** The first entry that is not in an earlier group or in the group of `flag`, and the one before it. */
    method FindGroupEnd(p: nat, flag: nat) returns (q: nat, r: nat, ghost i: nat)
      requires Valid() && p < |nodes|
      ensures i == GroupEnd(List(p), flag) <= |nodes[p]| == |List(p)| && q == EntryAt(nodes[p], i)
      ensures r == (if i == 0 then 0 else nodes[p][i - 1]) && r < |num| && num[r] == if i == 0 then 0 else List(p)[i - 1]
    {
      hide ListAt, Refs, GroupEnd;
      FirstEntry(M(), nodes, owner, p);
      ghost var l := List(p);
      q, r, i := head[p], 0, 0;
      assert l[0..] == l;
      while num[q] > flag
        invariant i <= |l| && q == EntryAt(nodes[p], i) && r == (if i == 0 then 0 else nodes[p][i - 1]) && q < |num|
        invariant GroupEnd(l, flag) == i + GroupEnd(l[i..], flag)
        decreases |l| - i
      {
        NextEntry(M(), nodes, owner, p, i);
        GroupGoesOn(l, i, flag);
        i := i + 1;
        r := q;
        q := xlink[q];
      }
      if i < |l| { NextEntry(M(), nodes, owner, p, i); }
      GroupEndsHere(l, i, flag);
      if i > 0 { NextEntry(M(), nodes, owner, p, i - 1); }
    }

    /** `new_section_xref` */
    method NewSectionXref(p: nat) returns (ok: bool)
      requires Valid() && p < |nodes| && sectionCount > 0
      modifies `num, `xlink, `head, `nodes, `owner, `sectionXrefSwitch
      ensures Valid() && OnlyChanges(p)
      ensures var l := old(List(p));
              var r := XrefLists.NewSectionXref(l, sectionCount, old(sectionXrefSwitch));
              && Added(ok, l, r, |old(num)|, List(p))
              && sectionXrefSwitch == if ok && |r| > |l| then 0 else old(sectionXrefSwitch)
      ensures p !in ids && sectionCount < CITE_FLAG && GroupFlag(old(sectionXrefSwitch)) && old(UpToDate()) ==> UpToDate()
    {
      hide Refs, Holds, Grouped, AllUpToDate, OthersKept, XrefLists.NewSectionXref;
      ghost var tidy, l, flag := UpToDate() && sectionCount < CITE_FLAG, List(p), sectionXrefSwitch;
      ghost var m0, nodes0, owner0 := M(), nodes, owner;
      ok := RecordSectionXref(p);
      if p !in ids && tidy && GroupFlag(flag) {
        ListUpToDate(m0, nodes0, owner0, p, ids, sectionCount);
        NewSectionXrefKeeps(l, sectionCount, flag);
        UpToDateIff(m0, nodes0, owner0, M(), nodes, owner, p, ids, sectionCount);
      }
    }

    method RecordSectionXref(p: nat) returns (ok: bool)
      requires Valid() && p < |nodes| && sectionCount > 0
      modifies `num, `xlink, `head, `nodes, `owner, `sectionXrefSwitch
      ensures Valid() && OnlyChanges(p)
      ensures var l := old(List(p));
              var r := XrefLists.NewSectionXref(l, sectionCount, old(sectionXrefSwitch));
              && Added(ok, l, r, |old(num)|, List(p))
              && sectionXrefSwitch == if ok && |r| > |l| then 0 else old(sectionXrefSwitch)
    {
      hide ListAt, Refs, Holds, GroupEnd;
      ghost var l := List(p);
      var q, r, i := FindGroupEnd(p, sectionXrefSwitch);
      ok := true;
      var c := sectionCount + sectionXrefSwitch;
      if num[r] == c { return; }
      if r == 0 {
        RNull(M(), nodes, owner, p, i);
        ok := Prepend(p, c);
        assert [c] + l == l[..0] + [c] + l[0..];
      } else {
        ok := InsertBehind(p, r, q, c, i);
      }
      if ok { sectionXrefSwitch := 0; }
    }

    /** `set_file_flag` */
    method SetFileFlag(p: nat) returns (ok: bool)
      requires Valid() && p < |nodes|
      modifies `num, `xlink, `head, `nodes, `owner
      ensures Valid() && OnlyChanges(p)
      ensures Added(ok, old(List(p)), XrefLists.SetFileFlag(old(List(p))), |old(num)|, List(p))
      ensures p !in ids && old(UpToDate()) ==> UpToDate()
    {
      hide Refs, Holds, Grouped, AllUpToDate, OthersKept, XrefLists.SetFileFlag;
      ghost var tidy, l := UpToDate(), List(p);
      ghost var m0, nodes0, owner0 := M(), nodes, owner;
      ok := RecordFile(p);
      if p !in ids && tidy {
        ListUpToDate(m0, nodes0, owner0, p, ids, sectionCount);
        SetFileFlagKeeps(l);
        FileUpTo(l, sectionCount);
        UpToDateIff(m0, nodes0, owner0, M(), nodes, owner, p, ids, sectionCount);
      }
    }

    method RecordFile(p: nat) returns (ok: bool)
      requires Valid() && p < |nodes|
      modifies `num, `xlink, `head, `nodes, `owner
      ensures Valid() && OnlyChanges(p)
      ensures Added(ok, old(List(p)), XrefLists.SetFileFlag(old(List(p))), |old(num)|, List(p))
    {
      hide ListAt, Refs, Holds;
      FirstEntry(M(), nodes, owner, p);
      ok := true;
      var q := head[p];
      if q != 0 {
        NextEntry(M(), nodes, owner, p, 0);
        if num[q] == FILE_FLAG { return; }
      }
      ok := Prepend(p, FILE_FLAG);
    }

    // ----- @f ------------------------------------------------------------------------------------

    /** A use is taken out of list `p`: entry `q`, behind entry `r` if that is not 0. */
    method Unlink(p: nat, r: nat, q: nat, ghost i: nat)
      requires Valid() && p < |nodes| && i < |nodes[p]| && q == nodes[p][i] && r == if i == 0 then 0 else nodes[p][i - 1]
      modifies `xlink, `head, `nodes
      ensures Valid() && OnlyChanges(p) && i < |old(List(p))| && |nodes| == |old(nodes)|
      ensures nodes[p] == old(nodes[p])[..i] + old(nodes[p])[i + 1..]
      ensures List(p) == old(List(p))[..i] + old(List(p))[i + 1..]
    {
      hide ListAt, Refs;
      NextEntry(M(), nodes, owner, p, i);
      if i > 0 { NextEntry(M(), nodes, owner, p, i - 1); }
      UnlinkedHolds(M(), nodes, owner, p, i);
      ghost var l := nodes[p];
      nodes := nodes[p := l[..i] + l[i + 1..]];
      if r != 0 {
        xlink := xlink[r := xlink[q]];
      } else {
        head := head[p := xlink[q]];
      }
    }

    /** What `@f` does to the list of a name that is not to be indexed by itself any more: only definitions stay. */
    method DropUses(p: nat)
      requires Valid() && p < |nodes|
      modifies `xlink, `head, `nodes
      ensures Valid() && OnlyChanges(p) && List(p) == Definitions(old(List(p))) && |nodes| == |old(nodes)|
      ensures p in ids && old(UpToDate()) ==> UpToDate()
    {
      hide Refs, Holds, AllUpToDate, OthersKept, Definitions;
      ghost var tidy, l := UpToDate(), List(p);
      ghost var m0, nodes0, owner0 := M(), nodes, owner;
      UnlinkUses(p);
      if p in ids && tidy {
        ListUpToDate(m0, nodes0, owner0, p, ids, sectionCount);
        DefinitionsKeep(l);
        DefinitionsUpTo(l, sectionCount);
        UpToDateIff(m0, nodes0, owner0, M(), nodes, owner, p, ids, sectionCount);
      }
    }

    method UnlinkUses(p: nat)
      requires Valid() && p < |nodes|
      modifies `xlink, `head, `nodes
      ensures Valid() && OnlyChanges(p) && List(p) == Definitions(old(List(p))) && |nodes| == |old(nodes)|
    {
      hide Refs, Holds, OthersKept, Definitions, ListAt;
      FirstEntry(M(), nodes, owner, p);
      OthersSelf(M(), nodes, owner, p);
      var q, r := head[p], 0;
      ghost var i: nat, m0, nodes0, owner0 := 0, M(), nodes, owner;
      while q != 0
        invariant Valid() && |nodes| == |nodes0| && i <= |nodes[p]| == |List(p)| && q == EntryAt(nodes[p], i)
        invariant r == if i == 0 then 0 else nodes[p][i - 1]
        invariant Definitions(List(p)) == Definitions(old(List(p))) && forall j | 0 <= j < i :: Defines(List(p)[j])
        invariant OthersKept(m0, nodes0, owner0, M(), nodes, owner, p)
        decreases |nodes[p]| - i
      {
        NextEntry(M(), nodes, owner, p, i);
        var next := xlink[q];
        if num[q] < DEF_FLAG {
          ghost var l, m1, nodes1 := List(p), M(), nodes;
          Unlink(p, r, q, i);
          UseDropped(l, i);
          OthersTrans(m0, nodes0, owner0, m1, nodes1, owner, M(), nodes, owner, p);
          FirstEntry(M(), nodes, owner, p);
        } else {
          r := q;
          i := i + 1;
        }
        q := next;
      }
      FirstEntry(M(), nodes, owner, p);
      DefinitionsOnly(List(p));
    }

    // ----- Printing ------------------------------------------------------------------------------

    /** The list that begins at `first` is reversed in place. */
    method ReverseInPlace(first: nat, ghost l: seq<nat>) returns (cur: nat)
      requires Chain(xlink, first, l) && Distinct(l) && l != []
      modifies `xlink
      ensures Chain(xlink, cur, Reversed(l)) && |xlink| == |old(xlink)|
      ensures forall x | 0 <= x < |xlink| && x !in l :: xlink[x] == old(xlink)[x]
      ensures Chain(xlink, first, [l[0]])
    {
      hide Chain, Distinct, Reversed;
      var this_ := first;
      cur := 0;
      ghost var k := 0;
      ReverseStarts(xlink, first, l);
      while this_ != 0
        invariant k <= |l| && |xlink| == |old(xlink)|
        invariant Chain(xlink, cur, Reversed(l[..k])) && Chain(xlink, this_, l[k..])
        invariant forall x | 0 <= x < |xlink| && x !in l :: xlink[x] == old(xlink)[x]
        invariant if k == 0 then cur == 0 && this_ == first else first < |xlink| && xlink[first] == 0
        decreases |l| - k
      {
        ReverseStep(xlink, this_, cur, l, k, first);
        var next := xlink[this_];
        xlink := xlink[this_ := cur];
        cur := this_;
        this_ := next;
        k := k + 1;
      }
      ReverseEnds(xlink, first, l, k);
    }

    /** The numbers of the list that begins at `first`. */
    method PrintNumbers(first: nat, ghost l: seq<nat>) returns (line: seq<nat>)
      requires Chain(xlink, first, l) && l != [] && |xlink| == |num|
      ensures (forall i | 0 <= i < |l| :: l[i] < |num|) && line == Nums(num, l)
    {
      ChainBounds(xlink, first, l);
      ghost var k := 0;
      var cur := first;
      line := [];
      assert l[0..] == l;
      while cur != 0
        invariant k <= |l| && Chain(xlink, cur, l[k..]) && line == Nums(num, l)[..k]
        decreases |l| - k
      {
        assert l[k..][0] == l[k] && l[k..][1..] == l[k + 1..];
        line := line + [num[cur]];
        cur := xlink[cur];
        k := k + 1;
      }
    }

    /** The index line of name `p`: its list is reversed in place and printed from the new beginning. */
    method IndexLine(p: nat) returns (line: seq<nat>)
      requires Valid() && p < |nodes| && List(p) != []
      modifies `xlink, `nodes
      ensures line == Reversed(old(List(p)))
      ensures Valid() && OnlyChanges(p)
      ensures IdList(old(List(p))) ==> IdList(line) && (Increasing(line) <==> Decreasing(old(List(p))))
    {
      hide Refs, Holds, OthersKept, Reversed;
      ghost var l := List(p);
      line := PrintReversed(p);
      if IdList(l) { ReversedIncreasing(l); }
    }

    /** The index lines of several identifiers: each is increasing exactly if its list was in order, whatever the
        other lists are. */
    method IndexLines(order: seq<nat>) returns (lines: seq<seq<nat>>)
      requires Valid() && Distinct(order) && forall i | 0 <= i < |order| :: order[i] < |nodes| && List(order[i]) != []
      modifies `xlink, `nodes
      ensures |lines| == |order| && forall i | 0 <= i < |order| :: lines[i] == Reversed(old(List(order[i])))
      ensures forall i | 0 <= i < |order| && IdList(old(List(order[i]))) ::
                IdList(lines[i]) && (Increasing(lines[i]) <==> Decreasing(old(List(order[i]))))
    {
      hide Refs, Holds, Reversed, Increasing, Decreasing;
      lines := [];
      while |lines| < |order|
        invariant |lines| <= |order| && Valid() && |nodes| == old(|nodes|)
        invariant forall i | |lines| <= i < |order| :: List(order[i]) == old(List(order[i]))
        invariant forall i | 0 <= i < |lines| :: lines[i] == Reversed(old(List(order[i])))
        invariant forall i | 0 <= i < |lines| && IdList(old(List(order[i]))) ::
                    IdList(lines[i]) && (Increasing(lines[i]) <==> Decreasing(old(List(order[i]))))
      {
        var line := IndexLine(order[|lines|]);
        lines := lines + [line];
      }
    }

    method PrintReversed(p: nat) returns (line: seq<nat>)
      requires Valid() && p < |nodes| && List(p) != []
      modifies `xlink, `nodes
      ensures line == Reversed(old(List(p)))
      ensures Valid() && OnlyChanges(p) && List(p) == [old(List(p))[0]]
    {
      FirstEntry(M(), nodes, owner, p);
      ListChain(M(), nodes, owner, p);
      hide ListAt, Chain, Distinct, Reversed;
      ghost var m0, nodes0, l := M(), nodes, nodes[p];
      var first := head[p];
      var cur := ReverseInPlace(first, l);
      line := PrintNumbers(cur, Reversed(l));
      NumsReversed(num, l);
      nodes := nodes[p := [l[0]]];
      ReversedHolds(m0, nodes0, owner, M(), p);
    }

    // ----- footnote ------------------------------------------------------------------------------

    /** `footnote`: the section numbers of one group, and the entry where the next group begins. */
    method Footnote(first: nat, flag: nat, ghost l: seq<nat>) returns (printed: seq<nat>, cur: nat, ghost rest: seq<nat>)
      requires Chain(xlink, first, l) && |xlink| == |num| > 0 && num[0] == 0
      ensures Chain(xlink, cur, rest) && InMemory(num, l) && InMemory(num, rest)
      ensures printed == XrefLists.Footnote(Nums(num, l), flag).0
      ensures Nums(num, rest) == XrefLists.Footnote(Nums(num, l), flag).1
    {
      ChainBounds(xlink, first, l);
      hide Chain, Nums, XrefLists.Footnote;
      cur, printed, rest := first, [], l;
      HeadIn(num, xlink, cur, rest);
      ghost var all := XrefLists.Footnote(Nums(num, l), flag);
      while num[cur] > flag
        invariant Chain(xlink, cur, rest) && InMemory(num, rest) && cur < |num|
        invariant all.0 == printed + XrefLists.Footnote(Nums(num, rest), flag).0
        invariant all.1 == XrefLists.Footnote(Nums(num, rest), flag).1
        decreases |rest|
      {
        FootnoteNext(num, xlink, cur, rest, flag);
        printed := printed + [num[cur] - flag];
        cur := xlink[cur];
        rest := rest[1..];
      }
      FootnoteEnds(num, cur, rest, flag, xlink);
    }

    /** The first entry is passed over. */
    method Advance(first: nat, ghost l: seq<nat>) returns (cur: nat, ghost rest: seq<nat>)
      requires Chain(xlink, first, l) && |xlink| == |num| > 0 && l != [] && InMemory(num, l)
      ensures Chain(xlink, cur, rest) && InMemory(num, rest) && Nums(num, rest) == Nums(num, l)[1..]
    {
      cur, rest := xlink[first], l[1..];
    }

    /** Where the footnotes of the section whose name is `p` begin. */
    method SkipStart(p: nat) returns (cur: nat, ghost l: seq<nat>)
      requires Valid() && p < |nodes|
      ensures Chain(xlink, cur, l) && InMemory(num, l) && Nums(num, l) == Skipped(List(p))
      ensures |xlink| == |num| > 0 && num[0] == 0
    {
      hide Chain, Distinct, ListAt, Nums, Refs;
      ListChain(M(), nodes, owner, p);
      FirstEntry(M(), nodes, owner, p);
      l := nodes[p];
      cur := head[p];
      FirstNumber(num, xlink, cur, l);
      if num[cur] == FILE_FLAG { cur, l := Advance(cur, l); }
      FirstNumber(num, xlink, cur, l);
      if num[cur] > DEF_FLAG { cur, l := Advance(cur, l); }
    }

    /** The footnotes of the section whose name is `p`. */
    method Footnotes(p: nat) returns (also: seq<nat>, cited: seq<nat>, used: seq<nat>)
      requires Valid() && p < |nodes|
      ensures var f := XrefLists.Footnotes(List(p)); also == f.0 && cited == f.1 && used == f.2
    {
      hide Chain, Distinct, ListAt, Nums, Refs, Holds, XrefLists.Footnote, Skipped;
      var cur, l := SkipStart(p);
      also, cur, l := Footnote(cur, DEF_FLAG, l);
      cited, cur, l := Footnote(cur, CITE_FLAG, l);
      used, cur, l := Footnote(cur, 0, l);
    }
  }

  /** The entries are in memory, and none of them is the end of lists. */
  ghost predicate InMemory(num: seq<nat>, l: seq<nat>) {
    forall i | 0 <= i < |l| :: 0 < l[i] < |num|
  }

  lemma FirstNumber(num: seq<nat>, next: seq<nat>, head: nat, l: seq<nat>)
    requires Chain(next, head, l) && |next| == |num| > 0 && num[0] == 0 && InMemory(num, l)
    ensures head < |num| && num[head] == (if l == [] then 0 else Nums(num, l)[0]) && |Nums(num, l)| == |l|
  {
  }

  lemma HeadIn(num: seq<nat>, next: seq<nat>, head: nat, l: seq<nat>)
    requires Chain(next, head, l) && |next| == |num| > 0
    ensures head < |num|
  {
  }

  lemma FirstIn(num: seq<nat>, next: seq<nat>, head: nat, l: seq<nat>)
    requires Chain(next, head, l) && |next| == |num| && head != 0 && InMemory(num, l)
    ensures l != [] && l[0] == head < |num| && next[head] < |num| && Chain(next, next[head], l[1..]) && InMemory(num, l[1..])
  {
    assert Chain(next, next[head], l[1..]);
  }

  lemma NumsTail(num: seq<nat>, l: seq<nat>)
    requires l != [] && forall i | 0 <= i < |l| :: l[i] < |num|
    ensures Nums(num, l)[0] == num[l[0]] && Nums(num, l)[1..] == Nums(num, l[1..])
  {
  }

  lemma FootnoteNext(num: seq<nat>, next: seq<nat>, head: nat, l: seq<nat>, flag: nat)
    requires Chain(next, head, l) && |next| == |num| > 0 && num[0] == 0 && head < |num| && num[head] > flag
    requires InMemory(num, l)
    ensures l != [] && Chain(next, next[head], l[1..]) && next[head] < |num| && InMemory(num, l[1..])
    ensures XrefLists.Footnote(Nums(num, l), flag).0 == [num[head] - flag] + XrefLists.Footnote(Nums(num, l[1..]), flag).0
    ensures XrefLists.Footnote(Nums(num, l), flag).1 == XrefLists.Footnote(Nums(num, l[1..]), flag).1
  {
    hide XrefLists.Footnote, Nums, Chain;
    FirstIn(num, next, head, l);
    NumsTail(num, l);
    FootnoteFirst(Nums(num, l), flag);
  }

  lemma FootnoteFirst(n: seq<nat>, flag: nat)
    requires n != [] && n[0] > flag
    ensures XrefLists.Footnote(n, flag).0 == [n[0] - flag] + XrefLists.Footnote(n[1..], flag).0
    ensures XrefLists.Footnote(n, flag).1 == XrefLists.Footnote(n[1..], flag).1
  {
    var i := GroupEnd(n[1..], flag);
    assert n[..i + 1][1..] == n[1..][..i];
  }

  lemma FootnoteEnds(num: seq<nat>, head: nat, l: seq<nat>, flag: nat, next: seq<nat>)
    requires Chain(next, head, l) && head < |num| && num[head] <= flag && InMemory(num, l)
    ensures XrefLists.Footnote(Nums(num, l), flag) == ([], Nums(num, l))
  {
  }

  lemma ListChain(m: Memory, nodes: seq<seq<nat>>, owner: seq<nat>, p: nat)
    requires Holds(m, nodes, owner) && p < |nodes|
    ensures p < |m.head| && Chain(m.xlink, m.head[p], nodes[p]) && Distinct(nodes[p])
    ensures Refs(m, nodes, owner, p) == Nums(m.num, nodes[p])
  {
  }

  lemma ReverseStarts(next: seq<nat>, first: nat, l: seq<nat>)
    requires Chain(next, first, l)
    ensures Chain(next, 0, Reversed(l[..0])) && Chain(next, first, l[0..])
  {
    assert l[0..] == l;
  }

  lemma ReverseStep(next: seq<nat>, x: nat, cur: nat, l: seq<nat>, k: nat, first: nat)
    requires k <= |l| && Distinct(l) && x != 0 && Chain(next, cur, Reversed(l[..k])) && Chain(next, x, l[k..])
    requires if k == 0 then cur == 0 && x == first else l != [] && l[0] == first
    ensures k < |l| && x == l[k] < |next| && x in l
    ensures Chain(next[x := cur], x, Reversed(l[..k + 1])) && Chain(next[x := cur], next[x], l[k + 1..])
    ensures k > 0 ==> x != first
  {
    var r := l[k..];
    assert r[1..] == l[k + 1..] && r[0] == l[k];
    forall i | 0 <= i < k ensures Reversed(l[..k])[i] != x {
      ReversedAt(l[..k], i);
    }
    ChainCons(next, cur, Reversed(l[..k]), x);
    assert l[..k + 1] == l[..k] + [x];
    ReversedAppend(l[..k], x);
    ChainFrame(next, next[x := cur], next[x], l[k + 1..]);
  }

  lemma ReverseEnds(next: seq<nat>, first: nat, l: seq<nat>, k: nat)
    requires k <= |l| && l != [] && Chain(next, 0, l[k..])
    requires if k == 0 then true else first == l[0] && 0 < first < |next| && next[first] == 0
    ensures k == |l| && l[..k] == l && Chain(next, first, [l[0]])
  {
    assert [l[0]][1..] == [];
  }

  lemma NumsReversed(num: seq<nat>, l: seq<nat>)
    requires forall i | 0 <= i < |l| :: l[i] < |num|
    ensures forall i | 0 <= i < |l| :: Reversed(l)[i] < |num|
    ensures Nums(num, Reversed(l)) == Reversed(Nums(num, l))
  {
    hide Reversed;
    var n := Nums(num, l);
    forall i | 0 <= i < |l| ensures Reversed(l)[i] == l[|l| - 1 - i] { ReversedAt(l, i); }
    forall i | 0 <= i < |l| ensures Reversed(n)[i] == n[|l| - 1 - i] { ReversedAt(n, i); }
    assert Nums(num, Reversed(l)) == Reversed(n);
  }

  /** The list of `p` ends now with its first entry; the other lists are what they were. */
  lemma ReversedHolds(m: Memory, nodes: seq<seq<nat>>, owner: seq<nat>, m': Memory, p: nat)
    requires Holds(m, nodes, owner) && p < |nodes| && nodes[p] != [] && |m'.xlink| == |m.xlink|
    requires m'.num == m.num && m'.head == m.head && Chain(m'.xlink, m.head[p], [nodes[p][0]])
    requires forall x | 0 <= x < |m.xlink| && x !in nodes[p] :: m'.xlink[x] == m.xlink[x]
    ensures Holds(m', nodes[p := [nodes[p][0]]], owner)
    ensures OthersKept(m, nodes, owner, m', nodes[p := [nodes[p][0]]], owner, p)
  {
    var nodes' := nodes[p := [nodes[p][0]]];
    forall q | 0 <= q < |nodes| ensures ListAt(m', nodes'[q], owner, q) {
      assert ListAt(m, nodes[q], owner, q) && ListAt(m, nodes[p], owner, p);
      if q != p { ChainFrame(m.xlink, m'.xlink, m.head[q], nodes[q]); }
    }
  }

  lemma RNull(m: Memory, nodes: seq<seq<nat>>, owner: seq<nat>, p: nat, i: nat)
    requires Holds(m, nodes, owner) && p < |nodes| && i <= |nodes[p]| && (i > 0 ==> nodes[p][i - 1] == 0)
    ensures i == 0
  {
    FirstEntry(m, nodes, owner, p);
  }

  lemma GroupGoesOn(l: seq<nat>, i: nat, flag: nat)
    requires i < |l| && l[i] > flag
    ensures GroupEnd(l[i..], flag) == 1 + GroupEnd(l[i + 1..], flag)
  {
    assert l[i..][1..] == l[i + 1..];
  }

  lemma GroupEndsHere(l: seq<nat>, i: nat, flag: nat)
    requires i <= |l| && (i < |l| ==> l[i] <= flag)
    ensures GroupEnd(l[i..], flag) == 0
  {
  }

  /** Numbers up to position `j` have moved forward by one entry. */
  ghost predicate Shifted(l: seq<nat>, r: seq<nat>, j: nat) {
    && |r| == |l| + 1 && j <= |l|
    && (forall k | 0 <= k < j :: r[k] == l[k]) && (forall k | j < k < |r| :: r[k] == l[k - 1])
  }

  lemma ShiftedFirst(l: seq<nat>, r: seq<nat>)
    requires |r| == |l| + 1 && r[1..] == l
    ensures Shifted(l, r, 0)
  {
    forall k | 0 < k < |r| ensures r[k] == l[k - 1] { assert r[1..][k - 1] == r[k]; }
  }

  lemma ShiftedDone(l: seq<nat>, r: seq<nat>, i: nat, m: nat)
    requires Shifted(l, r, i)
    ensures i < |r| && i <= |l| && r[i := m] == l[..i] + [m] + l[i..]
  {
  }

  lemma ShiftedNext(l: seq<nat>, r: seq<nat>, j: nat)
    requires Shifted(l, r, j) && j + 1 < |r|
    ensures Shifted(l, r[j := r[j + 1]], j + 1)
  {
  }

  /** The shift ends in front of the entry where the search stopped. */
  lemma SameEntry(ls: seq<nat>, i: nat, j: nat)
    requires j <= i < |ls| && EntryAt(ls, j + 1) == EntryAt(ls, i + 1)
    requires Distinct(ls) && forall k | 0 <= k < |ls| :: ls[k] > 0
    ensures j == i
  {
  }

  lemma OthersSelf(m: Memory, nodes: seq<seq<nat>>, owner: seq<nat>, p: nat)
    requires Holds(m, nodes, owner)
    ensures OthersKept(m, nodes, owner, m, nodes, owner, p)
  {
  }
}