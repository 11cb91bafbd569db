/** Comparing section names: `web_strcmp` tells whether one string is equal to the other, extends it, is a
    prefix of it, or comes before or after it at the first difference. */
module NameOrder {
  import opened Wrappers

  datatype Comparison = Less | Equal | Greater | Prefix | Extension

  /** A `char` as C compares it; it is taken to be signed. */
  function Signed(b: Byte): int {
    if b < 128 then b else b - 256
  }

  /** What `web_strcmp(j, |j|, k, |k|)` returns. */
  function Compare(j: seq<Byte>, k: seq<Byte>): (c: Comparison)
    ensures c == Extension ==> |k| < |j|
    ensures c == Prefix ==> |j| < |k|
  {
    if k == [] then if j == [] then Equal else Extension
    else if j == [] then Prefix
    else if j[0] == k[0] then Compare(j[1..], k[1..])
    else if Signed(j[0]) < Signed(k[0]) then Less
    else Greater
  }

  /** `j` and `k` agree up to position `n`, where both go on and differ. */
  predicate DiffersAt(j: seq<Byte>, k: seq<Byte>, n: nat) {
    n < |j| && n < |k| && j[..n] == k[..n] && j[n] != k[n]
  }

  /** Either one string is a prefix of the other, or there is a first difference. */
  predicate Means(c: Comparison, j: seq<Byte>, k: seq<Byte>, n: nat) {
    match c
    case Equal => j == k
    case Prefix => j < k
    case Extension => k < j
    case Less => DiffersAt(j, k, n) && Signed(j[n]) < Signed(k[n])
    case Greater => DiffersAt(j, k, n) && Signed(j[n]) > Signed(k[n])
  }

  /** What each result of `web_strcmp` means; for two strings that differ, where. */
  lemma {:induction false} CompareMeans(j: seq<Byte>, k: seq<Byte>) returns (n: nat)
    ensures Means(Compare(j, k), j, k, n)
  {
    n := 0;
    if k != [] && j != [] && j[0] == k[0] {
      var m := CompareMeans(j[1..], k[1..]);
      n := m + 1;
      FirstSame(j, k, m);
    }
  }

  lemma FirstSame(j: seq<Byte>, k: seq<Byte>, m: nat)
    requires j != [] && k != [] && j[0] == k[0]
    ensures j[1..] == k[1..] ==> j == k
    ensures j[1..] < k[1..] ==> j < k
    ensures DiffersAt(j[1..], k[1..], m) ==> DiffersAt(j, k, m + 1)
  {
    assert j == [j[0]] + j[1..] && k == [k[0]] + k[1..];
    if DiffersAt(j[1..], k[1..], m) {
      assert j[..m + 1] == [j[0]] + j[1..][..m];
      assert k[..m + 1] == [k[0]] + k[1..][..m];
    }
  }

  /** Only one result can be right. */
  lemma {:induction false} MeansUnique(c: Comparison, j: seq<Byte>, k: seq<Byte>, n: nat)
    requires Means(c, j, k, n)
    ensures Compare(j, k) == c
  {
    var m := CompareMeans(j, k);
    NoDifference(j, k, m);
    NoDifference(j, k, n);
    if m < n { SameBefore(j, k, m, n); }
    if n < m { SameBefore(j, k, n, m); }
  }

  lemma NoDifference(j: seq<Byte>, k: seq<Byte>, n: nat)
    ensures DiffersAt(j, k, n) ==> !(j <= k) && !(k <= j)
  {
  }

  lemma SameBefore(j: seq<Byte>, k: seq<Byte>, m: nat, n: nat)
    requires m < n
    ensures DiffersAt(j, k, n) ==> !DiffersAt(j, k, m)
  {
    if DiffersAt(j, k, n) { assert j[m] == j[..n][m] && k[m] == k[..n][m]; }
  }

  lemma CompareSwap(j: seq<Byte>, k: seq<Byte>)
    ensures Compare(j, k) == Less <==> Compare(k, j) == Greater
  {
    if Compare(j, k) == Less {
      var n := CompareMeans(j, k);
      MeansUnique(Greater, k, j, n);
    }
    if Compare(k, j) == Greater {
      var n := CompareMeans(k, j);
      MeansUnique(Less, j, k, n);
    }
  }

  lemma LessTransitive(a: seq<Byte>, b: seq<Byte>, c: seq<Byte>)
    requires Compare(a, b) == Less && Compare(b, c) == Less
    ensures Compare(a, c) == Less
  {
    var m := CompareMeans(a, b);
    var n := CompareMeans(b, c);
    var i := if m < n then m else n;
    assert a[..i] == a[..m][..i] == b[..m][..i] == b[..i];
    assert b[..i] == b[..n][..i] == c[..n][..i] == c[..i];
    assert m < n ==> b[m] == b[..n][m] == c[..n][m];
    assert n < m ==> b[n] == b[..m][n] == a[..m][n];
    MeansUnique(Less, a, c, i);
  }

  /** The strings can be names of the same section: one is a prefix of the other. */
  predicate Compatible(a: seq<Byte>, b: seq<Byte>) {
    a <= b || b <= a
  }

  lemma CompatibleCompare(a: seq<Byte>, b: seq<Byte>)
    ensures Compatible(a, b) <==> Compare(a, b) != Less && Compare(a, b) != Greater
  {
    var n := CompareMeans(a, b);
    if DiffersAt(a, b, n) { NoDifference(a, b, n); }
  }

  /** Shortening a string leaves its order to all strings that are incompatible with the shorter one. */
  lemma ShorterSameOrder(x: seq<Byte>, longer: seq<Byte>, shorter: seq<Byte>)
    requires shorter <= longer && !Compatible(x, shorter)
    ensures Compare(x, longer) == Compare(x, shorter)
    ensures !Compatible(x, longer)
  {
    CompatibleCompare(x, shorter);
    var n := CompareMeans(x, shorter);
    assert longer[..n] == shorter[..n] && longer[n] == shorter[n];
    MeansUnique(Compare(x, shorter), x, longer, n);
    NoDifference(x, longer, n);
  }

  /** `web_strcmp`: the pointers advance together to the first difference or an end. */
  method WebStrcmp(j: seq<Byte>, k: seq<Byte>) returns (c: Comparison)
    ensures c == Compare(j, k)
  {
    var i := 0;
    while i < |k| && i < |j| && j[i] == k[i]
      invariant i <= |j| && i <= |k| && j[..i] == k[..i]
    {
      i := i + 1;
    }
    c := if i == |k| then if i == |j| then Equal else Extension
         else if i == |j| then Prefix
         else if Signed(j[i]) < Signed(k[i]) then Less
         else Greater;
    MeansUnique(c, j, k, i);
  }
}
