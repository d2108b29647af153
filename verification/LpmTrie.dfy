/** The byte-wise longest-prefix-match trie of bf_lpm_trie.c.

    A prefix is a string of bits. The node reached by its whole bytes holds it
    under a key made of the remaining 0 to 7 bits and their number. The first
    half of the module is about shapes, that is the prefixes held at each path and
    the counter kept beside them; the second half is the linked structure. */
module LpmTrie {
  import opened Options
  import opened Bits
  import opened Sets

  // ----- prefixes -----------------------------------------------------------

  /** get_prefix_key: the leading `length` bits of a byte, tagged with `length`. */
  function PrefixKey(length: nat, byte: Byte): nat
    requires length <= 8
  {
    if length == 0 then 0 else ShiftRight(Nat(byte), 8 - length) + length * 256
  }

  // The whole bytes of a bit string, and the key of what is left.
  function Path(s: seq<bool>): (p: seq<Byte>)
    ensures |p| == |s| / 8
  {
    seq(|s| / 8, i requires 0 <= i < |s| / 8 => s[8 * i..8 * i + 8])
  }

  function Rest(s: seq<bool>): (r: seq<bool>)
    ensures |r| == |s| % 8
  {
    s[8 * (|s| / 8)..]
  }

  function RestKey(rest: seq<bool>): nat {
    if rest == [] then 0 else Nat(rest) + |rest| * 256
  }

  lemma {:induction false} RestKeyInjective(x: seq<bool>, y: seq<bool>)
    requires |x| < 8 && |y| < 8 && RestKey(x) == RestKey(y)
    ensures x == y
  {
    NatBound(x);
    NatBound(y);
    assert Pow2(|x|) <= 256 && Pow2(|y|) <= 256 by { Pow2Byte(|x|); Pow2Byte(|y|); }
    assert |x| == |y|;
    NatInjective(x, y);
  }

  lemma {:induction false} Pow2Byte(n: nat)
    requires n <= 8
    ensures Pow2(n) <= 256
  {
    assert Pow2(8) == 256 by {
      assert Pow2(4) == 16;
    }
    if n < 8 { Pow2Monotone(n, 8); }
  }

  lemma {:induction false} Pow2Monotone(m: nat, n: nat)
    requires m <= n
    ensures Pow2(m) <= Pow2(n)
  {
    if m < n { Pow2Monotone(m, n - 1); }
  }

  /** Different bit strings live at different places. */
  lemma {:induction false} PlaceInjective(s: seq<bool>, t: seq<bool>)
    requires Path(s) == Path(t) && RestKey(Rest(s)) == RestKey(Rest(t))
    ensures s == t
  {
    RestKeyInjective(Rest(s), Rest(t));
    assert |s| == |t|;
    forall k | 0 <= k < |s| ensures s[k] == t[k] {
      if k < 8 * (|s| / 8) {
        assert Path(s)[k / 8][k % 8] == s[k] && Path(t)[k / 8][k % 8] == t[k];
      } else {
        assert Rest(s)[k - 8 * (|s| / 8)] == s[k] && Rest(t)[k - 8 * (|s| / 8)] == t[k];
      }
    }
  }

  /** Where the first `n` bits of a byte string live. */
  lemma {:induction false} PlaceOf(bytes: seq<Byte>, n: nat)
    requires n <= 8 * |bytes|
    ensures Path(BitsOf(bytes)[..n]) == bytes[..n / 8]
    ensures n % 8 == 0 ==> RestKey(Rest(BitsOf(bytes)[..n])) == 0
    ensures n % 8 != 0 ==> RestKey(Rest(BitsOf(bytes)[..n])) == PrefixKey(n % 8, bytes[n / 8])
  {
    PlacePath(bytes, n);
    hide Path;
    if n % 8 != 0 { PlaceRest(bytes, n); }
  }

  lemma {:induction false} PlacePath(bytes: seq<Byte>, n: nat)
    requires n <= 8 * |bytes|
    ensures Path(BitsOf(bytes)[..n]) == bytes[..n / 8]
  {
    hide BitsOf;
    var s := BitsOf(bytes)[..n];
    forall i | 0 <= i < n / 8 ensures Path(s)[i] == bytes[i] {
      BitsOfByte(bytes, i);
      assert s[8 * i..8 * i + 8] == BitsOf(bytes)[8 * i..8 * i + 8];
    }
  }

  lemma {:induction false} PlaceRest(bytes: seq<Byte>, n: nat)
    requires n <= 8 * |bytes| && n % 8 != 0
    ensures RestKey(Rest(BitsOf(bytes)[..n])) == PrefixKey(n % 8, bytes[n / 8])
  {
    hide BitsOf;
    var (s, b) := (BitsOf(bytes)[..n], bytes[n / 8]);
    BitsOfByte(bytes, n / 8);
    assert Rest(s) == BitsOf(bytes)[8 * (n / 8)..8 * (n / 8) + 8][..n % 8];
    assert Rest(s) == b[..n % 8];
    NatShiftRight(b, 8 - n % 8);
  }

  // ----- shapes -------------------------------------------------------------

  // Arithmetic on an unsigned char.
  function Increment(n: nat): nat { (n + 1) % 256 }
  function Decrement(n: nat): nat { (n + 255) % 256 }

  /** The prefixes of a node, and pref_num. */
  datatype Cell = Cell(held: map<nat, nat>, count: nat)

  const NEW: Cell := Cell(map[], 0)

  /** The nodes, by the path that leads to each. */
  type Shape = map<seq<Byte>, Cell>

  function Find(sh: Shape, s: seq<bool>): Option<nat> {
    if Path(s) in sh && RestKey(Rest(s)) in sh[Path(s)].held then Some(sh[Path(s)].held[RestKey(Rest(s))]) else None
  }

  /** The stored prefixes as a plain map. */
  ghost function Stored(sh: Shape): imap<seq<bool>, nat> {
    imap s | Find(sh, s).Some? :: Find(sh, s).value
  }

  function Kids(sh: Shape, p: seq<Byte>): set<Byte> {
    set q | q in sh && |q| == |p| + 1 && p <= q :: q[|p|]
  }

  /** Every node but the root has a parent. */
  ghost predicate Closed(sh: Shape) {
    [] in sh && forall p :: p in sh && p != [] ==> p[..|p| - 1] in sh
  }

  /** No node but the root is without prefixes and without children. */
  ghost predicate Pruned(sh: Shape) {
    forall p :: p in sh && p != [] ==> Useful(sh, p)
  }

  ghost predicate Useful(sh: Shape, p: seq<Byte>)
    requires p in sh
  {
    sh[p].held != map[] || Kids(sh, p) != {}
  }

  ghost predicate ValidKey(k: nat) {
    exists w: seq<bool> :: |w| < 8 && k == RestKey(w)
  }

  ghost predicate KeysValid(sh: Shape) {
    forall p :: p in sh ==> forall k :: k in sh[p].held ==> ValidKey(k)
  }

  /** What holds of every trie, whatever was inserted. */
  ghost predicate Sound(sh: Shape) {
    Closed(sh) && KeysValid(sh)
  }

  /** Every prefix counter holds the real number. */
  ghost predicate Exact(sh: Shape) {
    forall p :: p in sh ==> sh[p].count == |sh[p].held|
  }

  ghost predicate WellShaped(sh: Shape) {
    Sound(sh) && Pruned(sh) && Exact(sh)
  }

  lemma {:induction false} ClosedPrefix(sh: Shape, p: seq<Byte>, i: nat)
    requires Closed(sh) && p in sh && i <= |p|
    ensures p[..i] in sh
    decreases |p| - i
  {
    if i == |p| {
      assert p[..i] == p;
    } else {
      ClosedPrefix(sh, p, i + 1);
      assert p[..i + 1][..i] == p[..i];
    }
  }

  // ----- longest match ------------------------------------------------------

  /** The value of the longest prefix of `key[..n]` held by the shape. */
  function Longest(sh: Shape, key: seq<bool>, n: nat): Option<nat>
    requires n <= |key|
  {
    if Find(sh, key[..n]).Some? then Find(sh, key[..n])
    else if n == 0 then None
    else Longest(sh, key, n - 1)
  }

  /** `Longest` is the longest-prefix rule over the plain map: it returns the value
      of a stored prefix of the key that no longer stored prefix of the key beats,
      and nothing exactly when no prefix of the key is stored. */
  lemma {:induction false} LongestMatchRule(sh: Shape, key: seq<bool>, n: nat)
    requires n <= |key|
    ensures Longest(sh, key, n).None? <==> forall m :: 0 <= m <= n ==> key[..m] !in Stored(sh)
    ensures Longest(sh, key, n).Some? ==>
      exists m :: 0 <= m <= n && key[..m] in Stored(sh) && Longest(sh, key, n) == Some(Stored(sh)[key[..m]])
               && forall l :: m < l <= n ==> key[..l] !in Stored(sh)
  {
    hide Find;
    if Find(sh, key[..n]).None? && n > 0 { LongestMatchRule(sh, key, n - 1); }
  }

  /** Below a missing node nothing is stored. */
  lemma {:induction false} NothingBelow(sh: Shape, key: seq<Byte>, i: nat, n: nat)
    requires Closed(sh) && i <= |key| && key[..i] !in sh && 8 * i <= n <= 8 * |key|
    ensures i > 0
    ensures Longest(sh, BitsOf(key), n) == Longest(sh, BitsOf(key), 8 * i - 1)
    decreases n
  {
    hide BitsOf, Find;
    assert key[..0] == [];
    NotFoundBelow(sh, key, i, n);
    if n > 8 * i { NothingBelow(sh, key, i, n - 1); }
  }

  lemma {:induction false} NotFoundBelow(sh: Shape, key: seq<Byte>, i: nat, n: nat)
    requires Closed(sh) && i <= |key| && key[..i] !in sh && 8 * i <= n <= 8 * |key|
    ensures Find(sh, BitsOf(key)[..n]).None?
  {
    hide BitsOf;
    PlaceOf(key, n);
    assert key[..n / 8][..i] == key[..i];
    if key[..n / 8] in sh { ClosedPrefix(sh, key[..n / 8], i); }
  }

  // ----- insertion ----------------------------------------------------------

  function Prefixes(p: seq<Byte>): set<seq<Byte>> {
    set i | 0 <= i <= |p| :: p[..i]
  }

  /** The shape with empty nodes added along `p`. */
  function AddPath(sh: Shape, p: seq<Byte>): (r: Shape)
    ensures r.Keys == sh.Keys + Prefixes(p)
    ensures forall q :: q in r ==> r[q] == if q in sh then sh[q] else NEW
    ensures p in r
  {
    assert p == p[..|p|] && p[..|p|] in Prefixes(p);
    map q | q in sh.Keys + Prefixes(p) :: if q in sh then sh[q] else NEW
  }

  /** insert_prefix takes a prefix that holds 0 for an absent one and counts it. */
  function Put(c: Cell, k: nat, v: nat): Cell {
    Cell(c.held[k := v], if k in c.held && c.held[k] != 0 then c.count else Increment(c.count))
  }

  function Drop(c: Cell, k: nat): Cell {
    Cell(c.held - {k}, Decrement(c.count))
  }

  function InsertShape(sh: Shape, s: seq<bool>, v: nat): Shape {
    var t := AddPath(sh, Path(s));
    t[Path(s) := Put(t[Path(s)], RestKey(Rest(s)), v)]
  }

  lemma {:induction false} KidsIff(sh: Shape, p: seq<Byte>, b: Byte)
    ensures b in Kids(sh, p) <==> p + [b] in sh
  {
    if b in Kids(sh, p) {
      var q :| q in sh && |q| == |p| + 1 && p <= q && q[|p|] == b;
      assert q == p + [b];
    }
    if p + [b] in sh {
      assert (p + [b])[|p|] == b;
    }
  }

  lemma {:induction false} InsertFinds(sh: Shape, s: seq<bool>, v: nat, t: seq<bool>)
    ensures Find(InsertShape(sh, s, v), t) == if t == s then Some(v) else Find(sh, t)
  {
    if t != s && Path(t) == Path(s) && RestKey(Rest(t)) == RestKey(Rest(s)) { PlaceInjective(t, s); }
  }

  lemma {:induction false} InsertClosed(sh: Shape, s: seq<bool>, v: nat)
    requires Closed(sh)
    ensures Closed(InsertShape(sh, s, v))
  {
    var (new_, p) := (InsertShape(sh, s, v), Path(s));
    forall q | q in new_ && q != [] ensures q[..|q| - 1] in new_ {
      if q !in sh {
        var i :| 0 <= i <= |p| && q == p[..i];
        assert q[..|q| - 1] == p[..i - 1];
        assert p[..i - 1] in Prefixes(p);
      }
    }
  }

  lemma {:induction false} InsertPruned(sh: Shape, s: seq<bool>, v: nat)
    requires Pruned(sh)
    ensures Pruned(InsertShape(sh, s, v))
  {
    var (new_, p) := (InsertShape(sh, s, v), Path(s));
    forall q | q in new_ && q != [] ensures Useful(new_, q) {
      if q == p {
        assert RestKey(Rest(s)) in new_[p].held;
      } else if q in sh {
        assert Useful(sh, q);
        forall b | b in Kids(sh, q) ensures b in Kids(new_, q) { KidsIff(sh, q, b); KidsIff(new_, q, b); }
      } else {
        var i :| 0 <= i <= |p| && q == p[..i];
        assert p[..|p|] == p;
        assert i < |p|;
        assert q + [p[i]] == p[..i + 1] && p[..i + 1] in Prefixes(p);
        KidsIff(new_, q, p[i]);
      }
    }
  }

  /** Inserting updates the plain map at one point. It keeps the counters exact if
      and only if it does not meet the prefix with value 0. */
  lemma {:induction false} InsertStores(sh: Shape, s: seq<bool>, v: nat)
    requires Sound(sh)
    ensures Sound(InsertShape(sh, s, v))
    ensures Stored(InsertShape(sh, s, v)) == Stored(sh)[s := v]
    ensures WellShaped(sh) ==> (WellShaped(InsertShape(sh, s, v)) <==> Find(sh, s) != Some(0))
  {
    InsertClosed(sh, s, v);
    InsertKeysValid(sh, s, v);
    InsertMap(sh, s, v);
    if WellShaped(sh) {
      InsertPruned(sh, s, v);
      InsertExact(sh, s, v);
    }
  }

  lemma {:induction false} InsertExact(sh: Shape, s: seq<bool>, v: nat)
    requires KeysValid(sh) && Exact(sh)
    ensures Exact(InsertShape(sh, s, v)) <==> Find(sh, s) != Some(0)
  {
    hide Path, Rest, RestKey, ValidKey, InsertShape, Prefixes, Increment;
    var (new_, p, k) := (InsertShape(sh, s, v), Path(s), RestKey(Rest(s)));
    var c := if p in sh then sh[p] else NEW;
    InsertAt(sh, s, v);
    InsertKeysValid(sh, s, v);
    RootIsPrefix(p);
    AtMost255(new_[p].held.Keys);
    PutExact(c, k, v);
    assert forall q :: q in new_ && q != p ==> new_[q].count == |new_[q].held|;
    assert Find(sh, s) == Some(0) <==> k in c.held && c.held[k] == 0;
  }

  lemma {:induction false} PutExact(c: Cell, k: nat, v: nat)
    requires c.count == |c.held| && |Put(c, k, v).held.Keys| <= 255
    ensures Put(c, k, v).count == |Put(c, k, v).held| <==> !(k in c.held && c.held[k] == 0)
  {
    assert Put(c, k, v).held.Keys == c.held.Keys + {k};
    assert |Put(c, k, v).held| == |Put(c, k, v).held.Keys| && |c.held| == |c.held.Keys|;
    assert |c.held.Keys + {k}| == |c.held.Keys| + if k in c.held.Keys then 0 else 1;
  }

  lemma {:induction false} InsertKeysValid(sh: Shape, s: seq<bool>, v: nat)
    requires KeysValid(sh)
    ensures KeysValid(InsertShape(sh, s, v))
  {
    hide Path, Rest, RestKey;
    assert ValidKey(RestKey(Rest(s)));
  }

  lemma {:induction false} InsertMap(sh: Shape, s: seq<bool>, v: nat)
    ensures Stored(InsertShape(sh, s, v)) == Stored(sh)[s := v]
  {
    hide Find, InsertShape;
    forall t ensures Find(InsertShape(sh, s, v), t) == if t == s then Some(v) else Find(sh, t) {
      InsertFinds(sh, s, v, t);
    }
  }

  // ----- deletion -----------------------------------------------------------

  function Cut(sh: Shape, p: seq<Byte>): Shape {
    map q | q in sh && !(p <= q) :: sh[q]
  }

  function Remove(sh: Shape, s: seq<bool>): Shape
    requires Find(sh, s).Some?
  {
    sh[Path(s) := Drop(sh[Path(s)], RestKey(Rest(s)))]
  }

  /** The upward pruning loop goes by the two counters; the branch counter holds the
      real number modulo 256. */
  function Prune(sh: Shape, p: seq<Byte>): Shape
    decreases |p|
  {
    if Goes(sh, p) then Prune(Cut(sh, p), p[..|p| - 1]) else sh
  }

  predicate Goes(sh: Shape, p: seq<Byte>) {
    p != [] && p in sh && sh[p].count == 0 && |Kids(sh, p)| % 256 == 0
  }

  function DeleteShape(sh: Shape, s: seq<bool>): Shape {
    if Find(sh, s).None? then sh else Prune(Remove(sh, s), Path(s))
  }

  /** The last prefix of a node with all 256 children. */
  predicate Overflows(sh: Shape, s: seq<bool>) {
    && Find(sh, s).Some? && Path(s) != []
    && sh[Path(s)].held.Keys == {RestKey(Rest(s))} && |Kids(sh, Path(s))| == 256
  }

  /** Sound but for the node at `p`, which may have become useless. */
  ghost predicate AlmostPruned(sh: Shape, p: seq<Byte>) {
    && Sound(sh) && Exact(sh) && p in sh
    && forall q :: q in sh && q != [] && q != p ==> Useful(sh, q)
  }

  lemma {:induction false} NoKidsNoDescendants(sh: Shape, p: seq<Byte>, q: seq<Byte>)
    requires Closed(sh) && Kids(sh, p) == {} && q in sh && p <= q
    ensures q == p
  {
    if |q| > |p| {
      ClosedPrefix(sh, q, |p| + 1);
      assert q[..|p| + 1] == p + [q[|p|]];
      KidsIff(sh, p, q[|p|]);
    }
  }

  lemma {:induction false} CutKids(sh: Shape, p: seq<Byte>, q: seq<Byte>)
    requires p in sh && p != [] && q in Cut(sh, p)
    ensures q != p[..|p| - 1] ==> Kids(Cut(sh, p), q) == Kids(sh, q)
    ensures q == p[..|p| - 1] ==> Kids(Cut(sh, p), q) == Kids(sh, q) - {p[|p| - 1]} && p[|p| - 1] in Kids(sh, q)
  {
    hide Kids;
    forall b | q != p[..|p| - 1] || b != p[|p| - 1] ensures b in Kids(Cut(sh, p), q) <==> b in Kids(sh, q) {
      KidsIff(sh, q, b);
      KidsIff(Cut(sh, p), q, b);
      assert p <= q + [b] <==> p <= q || p == q + [b];
    }
    if q == p[..|p| - 1] {
      assert q + [p[|p| - 1]] == p;
      KidsIff(sh, q, p[|p| - 1]);
      KidsIff(Cut(sh, p), q, p[|p| - 1]);
    }
  }

  lemma {:induction false} CutSound(sh: Shape, p: seq<Byte>)
    requires Sound(sh) && p != []
    ensures Sound(Cut(sh, p))
  {
    forall q | q in Cut(sh, p) && q != [] ensures q[..|q| - 1] in Cut(sh, p) {
      assert p <= q[..|q| - 1] ==> p <= q;
    }
  }

  lemma {:induction false} CutAlmostPruned(sh: Shape, p: seq<Byte>)
    requires AlmostPruned(sh, p) && p != []
    ensures AlmostPruned(Cut(sh, p), p[..|p| - 1])
  {
    var (new_, up) := (Cut(sh, p), p[..|p| - 1]);
    assert up in new_;
    hide Kids, Sound;
    CutSound(sh, p);
    forall q | q in new_ && q != [] && q != up ensures Useful(new_, q) {
      assert Useful(sh, q);
      CutKids(sh, p, q);
    }
  }

  lemma {:induction false} CutEmptyFinds(sh: Shape, p: seq<Byte>, t: seq<bool>)
    requires Closed(sh) && p in sh && sh[p].held == map[] && Kids(sh, p) == {}
    ensures Find(Cut(sh, p), t) == Find(sh, t)
  {
    hide Kids, Path, Rest, RestKey;
    if Path(t) in sh && p <= Path(t) { NoKidsNoDescendants(sh, p, Path(t)); }
  }

  /** Pruning from a node with fewer than 256 children loses no prefix, and
      leaves no useless node behind. */
  lemma {:induction false} PruneSafe(sh: Shape, p: seq<Byte>)
    requires AlmostPruned(sh, p) && |Kids(sh, p)| < 256
    ensures WellShaped(Prune(sh, p))
    ensures forall t :: Find(Prune(sh, p), t) == Find(sh, t)
    decreases |p|
  {
    hide Find, Kids;
    if Goes(sh, p) {
      var (new_, up) := (Cut(sh, p), p[..|p| - 1]);
      forall t ensures Find(new_, t) == Find(sh, t) { CutEmptyFinds(sh, p, t); }
      CutAlmostPruned(sh, p);
      CutKids(sh, p, up);
      AtMost256(Kids(sh, up));
      PruneSafe(new_, up);
    } else {
      forall q | q in sh && q != [] ensures Useful(sh, q) {
        if q == p { assert sh[p].held != map[] || Kids(sh, p) != {}; }
      }
    }
  }

  lemma {:induction false} AtMost256(bytes: set<Byte>)
    ensures |bytes| <= 256
  {
    forall b | b in bytes ensures Nat(b) < 256 { NatBound(b); Pow2Byte(8); }
    forall b, c | b in bytes && c in bytes && Nat(b) == Nat(c) ensures b == c { NatInjective(b, c); }
    InjectiveBound(bytes, (b: Byte) => Nat(b), 256);
  }

  lemma {:induction false} InjectiveBound<T(!new)>(s: set<T>, f: T -> nat, n: nat)
    requires forall x :: x in s ==> f(x) < n
    requires forall x, y :: x in s && y in s && f(x) == f(y) ==> x == y
    ensures |s| <= n
    decreases n
  {
    if x :| x in s && f(x) == n - 1 {
      InjectiveBound(s - {x}, f, n - 1);
    } else if n > 0 {
      InjectiveBound(s, f, n - 1);
    } else {
      assert s == {};
    }
  }

  /** A node holds at most 255 prefixes, so its prefix counter never wraps. */
  lemma {:induction false} AtMost255(keys: set<nat>)
    requires forall k :: k in keys ==> ValidKey(k)
    ensures |keys| <= 255
  {
    var f := (k: nat) => Pow2(k / 256) + k % 256 - 1;
    forall k | k in keys ensures f(k) < 255 {
      var w: seq<bool> :| |w| < 8 && k == RestKey(w);
      KeyRank(w);
    }
    forall j, k | j in keys && k in keys && f(j) == f(k) ensures j == k {
      var w: seq<bool> :| |w| < 8 && j == RestKey(w);
      var x: seq<bool> :| |x| < 8 && k == RestKey(x);
      KeyRank(w);
      KeyRank(x);
      if |w| < |x| { Pow2Monotone(|w| + 1, |x|); } else if |x| < |w| { Pow2Monotone(|x| + 1, |w|); }
    }
    InjectiveBound(keys, f, 255);
  }

  lemma {:induction false} KeyRank(w: seq<bool>)
    requires |w| < 8
    ensures RestKey(w) / 256 == |w| && RestKey(w) % 256 == Nat(w)
    ensures Nat(w) < Pow2(|w|) && Pow2(|w|) + Nat(w) < 256
  {
    NatBound(w);
    Pow2Byte(|w| + 1);
  }

  // What deletion finds when the node keeps fewer than 256 children.
  lemma {:induction false} RemoveFinds(sh: Shape, s: seq<bool>, t: seq<bool>)
    requires Find(sh, s).Some?
    ensures Find(Remove(sh, s), t) == if t == s then None else Find(sh, t)
  {
    if t != s && Path(t) == Path(s) && RestKey(Rest(t)) == RestKey(Rest(s)) { PlaceInjective(t, s); }
  }

  lemma {:induction false} RemoveAlmostPruned(sh: Shape, s: seq<bool>)
    requires WellShaped(sh) && Find(sh, s).Some?
    ensures AlmostPruned(Remove(sh, s), Path(s))
    ensures Kids(Remove(sh, s), Path(s)) == Kids(sh, Path(s))
  {
    hide Path, Rest, RestKey;
    var new_ := Remove(sh, s);
    assert new_.Keys == sh.Keys;
    forall q ensures Kids(new_, q) == Kids(sh, q) {}
    forall q | q in new_ && q != [] && q != Path(s) ensures Useful(new_, q) { assert Useful(sh, q); }
    RemoveExact(sh, s);
  }

  lemma {:induction false} RemoveExact(sh: Shape, s: seq<bool>)
    requires Sound(sh) && Exact(sh) && Find(sh, s).Some?
    ensures Exact(Remove(sh, s))
  {
    hide Path, Rest, RestKey, ValidKey, Closed, Decrement;
    var (p, k) := (Path(s), RestKey(Rest(s)));
    AtMost255(sh[p].held.Keys);
    DropExact(sh[p], k);
  }

  lemma {:induction false} DropExact(c: Cell, k: nat)
    requires k in c.held && c.count == |c.held| && |c.held.Keys| <= 255
    ensures Drop(c, k).count == |Drop(c, k).held|
  {
    SmallerPrefixes(c.held, k);
    assert |c.held| == |c.held.Keys|;
  }

  function Subtree(sh: Shape, p: seq<Byte>): set<seq<Byte>> {
    set q | q in sh && p <= q
  }

  lemma {:induction false} SubtreeShrinks(sh: Shape, p: seq<Byte>, b: Byte)
    requires p in sh
    ensures Subtree(sh, p + [b]) < Subtree(sh, p)
  {
    assert p in Subtree(sh, p) && p !in Subtree(sh, p + [b]);
  }

  /** A useful node has a stored prefix in its subtree. */
  lemma {:induction false} SomethingBelow(sh: Shape, p: seq<Byte>) returns (t: seq<bool>)
    requires WellShaped(sh) && p in sh && p != []
    ensures Find(sh, t).Some? && p <= Path(t)
    decreases Subtree(sh, p)
  {
    hide Find, Kids, Subtree, KeysValid;
    assert Useful(sh, p);
    if sh[p].held != map[] {
      t := SomethingAt(sh, p);
    } else {
      var b :| b in Kids(sh, p);
      KidsIff(sh, p, b);
      SubtreeShrinks(sh, p, b);
      t := SomethingBelow(sh, p + [b]);
    }
  }

  lemma {:induction false} SomethingAt(sh: Shape, p: seq<Byte>) returns (t: seq<bool>)
    requires KeysValid(sh) && p in sh && sh[p].held != map[]
    ensures Find(sh, t).Some? && Path(t) == p
  {
    var k :| k in sh[p].held;
    var w: seq<bool> :| |w| < 8 && k == RestKey(w);
    t := BitsOf(p) + w;
    assert Rest(t) == w;
    forall i | 0 <= i < |p| ensures Path(t)[i] == p[i] {
      BitsOfByte(p, i);
      assert t[8 * i..8 * i + 8] == BitsOf(p)[8 * i..8 * i + 8];
    }
    assert Path(t) == p;
  }

  /** Deleting a stored prefix always leaves a sound shape. It removes exactly that
      prefix from the plain map if and only if it was not the last prefix of a
      node, other than the root, that has all 256 children. */
  lemma {:induction false} DeleteRemoves(sh: Shape, s: seq<bool>)
    requires WellShaped(sh) && Find(sh, s).Some?
    ensures WellShaped(DeleteShape(sh, s))
    ensures Stored(DeleteShape(sh, s)) == Stored(sh) - {s} <==> !Overflows(sh, s)
  {
    hide Find, Kids, Path, Remove, Cut, WellShaped;
    if Overflows(sh, s) {
      DeleteOverflow(sh, s);
    } else {
      DeleteSafe(sh, s);
      FindsToMap(sh, DeleteShape(sh, s), s);
    }
  }

  lemma {:induction false} FindsToMap(sh: Shape, new_: Shape, s: seq<bool>)
    requires forall t :: Find(new_, t) == if t == s then None else Find(sh, t)
    ensures Stored(new_) == Stored(sh) - {s}
  {
    hide Find;
  }

  lemma {:induction false} DeleteSafe(sh: Shape, s: seq<bool>)
    requires WellShaped(sh) && Find(sh, s).Some? && !Overflows(sh, s)
    ensures WellShaped(DeleteShape(sh, s))
    ensures forall t :: Find(DeleteShape(sh, s), t) == if t == s then None else Find(sh, t)
  {
    hide Kids, Path, Rest, RestKey;
    var (new_, p) := (Remove(sh, s), Path(s));
    RemoveAlmostPruned(sh, s);
    AtMost256(Kids(sh, p));
    forall t ensures Find(new_, t) == if t == s then None else Find(sh, t) { RemoveFinds(sh, s, t); }
    if p == [] {
    } else if |Kids(sh, p)| == 256 {
      assert RestKey(Rest(s)) in sh[p].held.Keys;
      assert new_[p].held != map[] by {
        var k :| k in sh[p].held.Keys && k != RestKey(Rest(s));
        assert k in new_[p].held;
      }
      assert Useful(new_, p);
    } else {
      PruneSafe(new_, p);
    }
  }

  /** In the remaining case the whole subtree goes, and with it live prefixes. */
  lemma {:induction false} DeleteOverflow(sh: Shape, s: seq<bool>)
    requires WellShaped(sh) && Overflows(sh, s)
    ensures WellShaped(DeleteShape(sh, s))
    ensures Stored(DeleteShape(sh, s)) != Stored(sh) - {s}
  {
    hide Kids, Rest, RestKey, Path, WellShaped, DeleteShape, Find;
    OverflowFinds(sh, s);
    var t := LostPrefix(sh, s);
    assert t in Stored(sh) - {s} && t !in Stored(DeleteShape(sh, s));
  }

  lemma {:induction false} LostPrefix(sh: Shape, s: seq<bool>) returns (t: seq<bool>)
    requires WellShaped(sh) && Overflows(sh, s)
    ensures t != s && Find(sh, t).Some? && Path(s) <= Path(t)
  {
    hide Kids, Path, WellShaped, Find;
    var b :| b in Kids(sh, Path(s));
    KidsIff(sh, Path(s), b);
    t := SomethingBelow(sh, Path(s) + [b]);
  }

  lemma {:induction false} OverflowFinds(sh: Shape, s: seq<bool>)
    requires WellShaped(sh) && Overflows(sh, s)
    ensures WellShaped(DeleteShape(sh, s))
    ensures forall t :: Find(DeleteShape(sh, s), t) == if Path(s) <= Path(t) then None else Find(sh, t)
  {
    hide Kids, Rest, RestKey, Path, WellShaped, AlmostPruned;
    var (mid, p) := (Remove(sh, s), Path(s));
    var (new_, up) := (Cut(mid, p), p[..|p| - 1]);
    RemoveAlmostPruned(sh, s);
    AlmostHas(mid, p);
    assert mid[p].held == map[] && mid[p].count == 0;
    CutAlmostPruned(mid, p);
    assert up in new_ by { AlmostHas(new_, up); }
    CutKids(mid, p, up);
    AtMost256(Kids(mid, up));
    hide Find, Cut;
    PruneSafe(new_, up);
    forall t ensures Find(new_, t) == if p <= Path(t) then None else Find(sh, t) { CutFinds(sh, s, t); }
  }

  lemma {:induction false} AlmostHas(sh: Shape, p: seq<Byte>)
    requires AlmostPruned(sh, p)
    ensures p in sh && sh[p].count == |sh[p].held|
  {}

  lemma {:induction false} CutFinds(sh: Shape, s: seq<bool>, t: seq<bool>)
    requires Find(sh, s).Some?
    ensures Find(Cut(Remove(sh, s), Path(s)), t) == if Path(s) <= Path(t) then None else Find(sh, t)
  {}

  // ----- deletion by the real counters --------------------------------------

  /** The highest node that the pruning loop unlinks, going by the counters. */
  function Top(sh: Shape, p: seq<Byte>): Option<seq<Byte>>
    decreases |p|
  {
    if !Goes(sh, p) then None
    else
      var above := Top(Cut(sh, p), p[..|p| - 1]);
      if above.Some? then above else Some(p)
  }

  lemma {:induction false} TopIsPrefix(sh: Shape, p: seq<Byte>)
    ensures Top(sh, p).Some? ==> Top(sh, p).value <= p
    decreases |p|
  {
    hide Goes, Cut;
    if Goes(sh, p) { GoesUp(sh, p); TopIsPrefix(Cut(sh, p), p[..|p| - 1]); }
  }

  lemma {:induction false} GoesUp(sh: Shape, p: seq<Byte>)
    requires Goes(sh, p)
    ensures p != []
  {}

  /** Pruning forgets exactly what is stored below that node. */
  lemma {:induction false} PruneFinds(sh: Shape, p: seq<Byte>, t: seq<bool>)
    ensures var top := Top(sh, p);
            Find(Prune(sh, p), t) == if top.Some? && top.value <= Path(t) then None else Find(sh, t)
    decreases |p|
  {
    hide Goes, Path, Rest, RestKey;
    if Goes(sh, p) {
      GoesUp(sh, p);
      PruneFinds(Cut(sh, p), p[..|p| - 1], t);
      TopIsPrefix(Cut(sh, p), p[..|p| - 1]);
    }
  }

  /** Something else is still stored below the highest node that a deletion unlinks. */
  ghost predicate Loses(sh: Shape, s: seq<bool>) {
    && Find(sh, s).Some?
    && var (mid, top) := (Remove(sh, s), Top(Remove(sh, s), Path(s)));
       top.Some? && exists q :: q in mid && top.value <= q && mid[q].held != map[]
  }

  /** Deletion from any trie, whatever its counters say: exactly the prefix goes if
      and only if nothing else is stored below the highest node that goes. */
  lemma {:induction false} DeleteExactIff(sh: Shape, s: seq<bool>)
    requires KeysValid(sh) && Find(sh, s).Some?
    ensures Stored(DeleteShape(sh, s)) == Stored(sh) - {s} <==> !Loses(sh, s)
  {
    hide Find, Path, Remove, Prune, Top, KeysValid;
    var (mid, top, new_) := (Remove(sh, s), Top(Remove(sh, s), Path(s)), DeleteShape(sh, s));
    forall t ensures Find(mid, t) == if t == s then None else Find(sh, t) { RemoveFinds(sh, s, t); }
    forall t ensures Find(new_, t) == if top.Some? && top.value <= Path(t) then None else Find(mid, t) {
      PruneFinds(mid, Path(s), t);
    }
    if Loses(sh, s) {
      var q :| q in mid && top.value <= q && mid[q].held != map[];
      RemoveKeysValid(sh, s);
      var t := SomethingAt(mid, q);
      assert t in Stored(sh) - {s} && t !in Stored(new_);
    } else {
      forall t ensures Find(new_, t) == Find(mid, t) {
        if Find(mid, t).Some? { FoundAt(mid, t); }
      }
      FindsToMap(sh, new_, s);
    }
  }

  lemma {:induction false} FoundAt(sh: Shape, t: seq<bool>)
    requires Find(sh, t).Some?
    ensures Path(t) in sh && sh[Path(t)].held != map[]
  {}

  lemma {:induction false} RemoveKeysValid(sh: Shape, s: seq<bool>)
    requires KeysValid(sh) && Find(sh, s).Some?
    ensures KeysValid(Remove(sh, s))
  {}

  lemma {:induction false} PruneSound(sh: Shape, p: seq<Byte>)
    requires Sound(sh)
    ensures Sound(Prune(sh, p))
    decreases |p|
  {
    hide Goes, Cut, Sound;
    if Goes(sh, p) {
      GoesUp(sh, p);
      CutSound(sh, p);
      PruneSound(Cut(sh, p), p[..|p| - 1]);
    }
  }

  lemma {:induction false} DeleteSound(sh: Shape, s: seq<bool>)
    requires Sound(sh)
    ensures Sound(DeleteShape(sh, s))
  {
    hide Prune;
    if Find(sh, s).Some? {
      RemoveKeysValid(sh, s);
      PruneSound(Remove(sh, s), Path(s));
    }
  }

  /** With exact counters a deletion loses something only in one case. */
  lemma {:induction false} LosesIsOverflow(sh: Shape, s: seq<bool>)
    requires WellShaped(sh) && Find(sh, s).Some?
    ensures Loses(sh, s) <==> Overflows(sh, s)
  {
    hide Loses, Overflows, DeleteShape, Find;
    DeleteExactIff(sh, s);
    DeleteRemoves(sh, s);
  }

  // ----- runs ---------------------------------------------------------------

  datatype Command = InsertCmd(prefix: seq<bool>, value: nat) | DeleteCmd(prefix: seq<bool>)

  /** bf_lpm_trie_delete removes nothing unless the trie releases memory. */
  function DeleteStep(release: bool, sh: Shape, s: seq<bool>): Shape {
    if release then DeleteShape(sh, s) else sh
  }

  function Step(release: bool, sh: Shape, c: Command): Shape {
    match c
    case InsertCmd(s, v) => InsertShape(sh, s, v)
    case DeleteCmd(s) => DeleteStep(release, sh, s)
  }

  function RunShape(release: bool, cmds: seq<Command>): Shape {
    if cmds == [] then map[[] := NEW]
    else Step(release, RunShape(release, cmds[..|cmds| - 1]), cmds[|cmds| - 1])
  }

  ghost function MapStep(m: imap<seq<bool>, nat>, c: Command): imap<seq<bool>, nat> {
    match c
    case InsertCmd(s, v) => m[s := v]
    case DeleteCmd(s) => m - {s}
  }

  ghost function RunMap(cmds: seq<Command>): imap<seq<bool>, nat> {
    if cmds == [] then imap[] else MapStep(RunMap(cmds[..|cmds| - 1]), cmds[|cmds| - 1])
  }

  /** A deletion that finds its prefix and fails: it loses something, or the trie does
      not release memory. */
  ghost predicate Fails(release: bool, sh: Shape, c: Command) {
    c.DeleteCmd? && Find(sh, c.prefix).Some? && (!release || Loses(sh, c.prefix))
  }

  lemma {:induction false} StepIff(release: bool, sh: Shape, c: Command)
    requires Sound(sh)
    ensures Sound(Step(release, sh, c))
    ensures Stored(Step(release, sh, c)) == MapStep(Stored(sh), c) <==> !Fails(release, sh, c)
  {
    hide Find, Loses, InsertShape, DeleteShape, Sound;
    match c
    case InsertCmd(s, v) => InsertStores(sh, s, v);
    case DeleteCmd(s) =>
      DeleteSound(sh, s);
      if Find(sh, s).None? {
        DeleteMissing(sh, s);
      } else {
        SoundKeys(sh);
        DeleteExactIff(sh, s);
        assert s in Stored(sh) && s !in Stored(sh) - {s};
      }
  }

  lemma {:induction false} SoundKeys(sh: Shape)
    requires Sound(sh)
    ensures KeysValid(sh)
  {}

  lemma {:induction false} RunSound(release: bool, cmds: seq<Command>)
    ensures Sound(RunShape(release, cmds))
  {
    hide Step, Sound;
    if cmds == [] {
      EmptyShape();
    } else {
      RunSound(release, cmds[..|cmds| - 1]);
      StepIff(release, RunShape(release, cmds[..|cmds| - 1]), cmds[|cmds| - 1]);
    }
  }

  ghost predicate AgreesAt(release: bool, cmds: seq<Command>, k: nat)
    requires k <= |cmds|
  {
    Stored(RunShape(release, cmds[..k])) == RunMap(cmds[..k])
  }

  ghost predicate FailsAt(release: bool, cmds: seq<Command>, i: nat)
    requires i < |cmds|
  {
    Fails(release, RunShape(release, cmds[..i]), cmds[i])
  }

  lemma {:induction false} AgreesNext(release: bool, cmds: seq<Command>, i: nat)
    requires i < |cmds| && AgreesAt(release, cmds, i)
    ensures AgreesAt(release, cmds, i + 1) <==> !FailsAt(release, cmds, i)
  {
    hide Step, MapStep, Fails, Stored;
    assert cmds[..i + 1][..i] == cmds[..i];
    RunSound(release, cmds[..i]);
    StepIff(release, RunShape(release, cmds[..i]), cmds[i]);
  }

  lemma {:induction false} AgreesAtFirst(release: bool, cmds: seq<Command>)
    ensures AgreesAt(release, cmds, 0)
  {
    EmptyShape();
    assert cmds[..0] == [];
  }

  /** Over every run, of any values: the trie agrees with the plain map throughout if
      and only if no deletion fails. */
  lemma {:induction false} RunAgreesIff(release: bool, cmds: seq<Command>, n: nat)
    requires n <= |cmds|
    ensures (forall k :: 0 <= k <= n ==> AgreesAt(release, cmds, k)) <==>
            (forall i :: 0 <= i < n ==> !FailsAt(release, cmds, i))
  {
    hide AgreesAt, FailsAt;
    AgreesAtFirst(release, cmds);
    if n > 0 {
      RunAgreesIff(release, cmds, n - 1);
      if AgreesAt(release, cmds, n - 1) { AgreesNext(release, cmds, n - 1); }
    }
  }

  /** What callers can keep to: no insert meets its prefix with value 0, and no delete
      takes the last prefix of a node with 256 children. */
  ghost predicate Careful(cmds: seq<Command>) {
    forall i :: 0 <= i < |cmds| ==> CarefulStep(RunShape(true, cmds[..i]), cmds[i])
  }

  ghost predicate CarefulStep(sh: Shape, c: Command) {
    match c
    case InsertCmd(s, _) => Find(sh, s) != Some(0)
    case DeleteCmd(s) => !Overflows(sh, s)
  }

  /** After any such run of inserts and deletes the trie holds exactly the prefixes of
      the plain map, its counters are exact and no node is useless. */
  lemma {:induction false} RunRefines(cmds: seq<Command>)
    requires Careful(cmds)
    ensures WellShaped(RunShape(true, cmds)) && Stored(RunShape(true, cmds)) == RunMap(cmds)
  {
    hide Step, CarefulStep, MapStep, WellShaped;
    if cmds == [] {
      EmptyShape();
    } else {
      var (before, n) := (cmds[..|cmds| - 1], |cmds| - 1);
      assert forall i :: 0 <= i < n ==> cmds[..i] == before[..i];
      RunRefines(before);
      assert cmds[..n] == before;
      CarefulStepKeeps(RunShape(true, before), cmds[n]);
    }
  }

  lemma {:induction false} CarefulStepKeeps(sh: Shape, c: Command)
    requires WellShaped(sh) && CarefulStep(sh, c)
    ensures WellShaped(Step(true, sh, c)) && Stored(Step(true, sh, c)) == MapStep(Stored(sh), c)
  {
    hide Find, Overflows, InsertShape, DeleteShape, Sound;
    match c
    case InsertCmd(s, v) => InsertStores(sh, s, v);
    case DeleteCmd(s) => if Find(sh, s).Some? { DeleteRemoves(sh, s); } else { DeleteMissing(sh, s); }
  }

  lemma {:induction false} DeleteMissing(sh: Shape, s: seq<bool>)
    requires Find(sh, s).None?
    ensures DeleteShape(sh, s) == sh && Stored(sh) == Stored(sh) - {s}
  {
    hide Find;
  }

  lemma {:induction false} EmptyShape()
    ensures WellShaped(map[[] := NEW]) && Stored(map[[] := NEW]) == imap[]
  {}

  /** `r` is the value of the longest prefix of `key` in a plain map, none if there is
      no prefix of it. */
  ghost predicate LongestIn(m: imap<seq<bool>, nat>, key: seq<bool>, r: Option<nat>) {
    && (r.None? <==> forall n :: 0 <= n <= |key| ==> key[..n] !in m)
    && (r.Some? ==>
          exists n :: 0 <= n <= |key| && key[..n] in m && r == Some(m[key[..n]])
                   && forall l :: n < l <= |key| ==> key[..l] !in m)
  }

  /** The rule of the trie over a whole run: lookups find the longest prefix of the
      key in the plain map, and fail exactly when there is none. */
  lemma {:induction false} LookupAfterRun(cmds: seq<Command>, key: seq<bool>)
    requires Careful(cmds)
    ensures LongestIn(RunMap(cmds), key, Longest(RunShape(true, cmds), key, |key|))
  {
    hide *;
    RunRefines(cmds);
    LongestFollows(RunShape(true, cmds), key);
  }

  lemma {:induction false} LongestFollows(sh: Shape, key: seq<bool>)
    ensures LongestIn(Stored(sh), key, Longest(sh, key, |key|))
  {
    hide Longest, Find, Stored;
    LongestMatchRule(sh, key, |key|);
  }

  // ----- runs that fail -----------------------------------------------------

  lemma {:induction false} InsertAt(sh: Shape, s: seq<bool>, v: nat)
    ensures InsertShape(sh, s, v).Keys == sh.Keys + Prefixes(Path(s))
    ensures forall q :: q in InsertShape(sh, s, v) && q != Path(s) ==>
            InsertShape(sh, s, v)[q] == if q in sh then sh[q] else NEW
    ensures InsertShape(sh, s, v)[Path(s)] == Put(if Path(s) in sh then sh[Path(s)] else NEW, RestKey(Rest(s)), v)
  {
    hide Path, Rest, RestKey, Prefixes;
    assert Path(s) in AddPath(sh, Path(s));
  }

  function Again(s: seq<bool>, n: nat): seq<Command> {
    if n == 0 then [] else Again(s, n - 1) + [InsertCmd(s, 0)]
  }

  lemma {:induction false} RunOne(release: bool, cmds: seq<Command>, c: Command)
    ensures RunShape(release, cmds + [c]) == Step(release, RunShape(release, cmds), c)
    ensures RunMap(cmds + [c]) == MapStep(RunMap(cmds), c)
  {
    hide Step, MapStep;
    assert (cmds + [c])[..|cmds|] == cmds;
  }

  // Each of n inserts of one prefix with value 0 is counted.
  lemma {:induction false} InsertedAgain(s: seq<bool>, n: nat)
    requires n > 0
    ensures var sh := RunShape(true, Again(s, n));
            && sh.Keys == Prefixes(Path(s)) && Path(s) in sh
            && sh[Path(s)] == Cell(map[RestKey(Rest(s)) := 0], n % 256)
    ensures RunMap(Again(s, n)) == imap[s := 0]
  {
    hide Path, Rest, RestKey, InsertShape, RunShape, RunMap, Prefixes;
    RunOne(true, Again(s, n - 1), InsertCmd(s, 0));
    RootIsPrefix(Path(s));
    if n == 1 {
      RunNothing();
      PutAgain(map[[] := NEW], s, 0);
      assert RunMap([])[s := 0] == imap[s := 0];
    } else {
      InsertedAgain(s, n - 1);
      PutAgain(RunShape(true, Again(s, n - 1)), s, n - 1);
      assert imap[s := 0][s := 0] == imap[s := 0];
    }
  }

  lemma {:induction false} PutAgain(sh: Shape, s: seq<bool>, n: nat)
    requires sh.Keys == if n == 0 then {[]} else Prefixes(Path(s))
    requires Path(s) in sh ==> sh[Path(s)] == if n == 0 then NEW else Cell(map[RestKey(Rest(s)) := 0], n % 256)
    requires {[]} + Prefixes(Path(s)) == Prefixes(Path(s)) && Path(s) in Prefixes(Path(s))
    ensures InsertShape(sh, s, 0).Keys == Prefixes(Path(s))
    ensures InsertShape(sh, s, 0)[Path(s)] == Cell(map[RestKey(Rest(s)) := 0], (n + 1) % 256)
  {
    hide Path, Rest, RestKey, InsertShape, Prefixes;
    InsertAt(sh, s, 0);
  }

  lemma {:induction false} RunNothing()
    ensures RunShape(true, []) == map[[] := NEW] && RunMap([]) == imap[]
  {}

  lemma {:induction false} RootIsPrefix(p: seq<Byte>)
    ensures {[]} + Prefixes(p) == Prefixes(p) && p in Prefixes(p)
  {
    assert p[..0] == [] && p[..|p|] == p;
  }

  lemma {:induction false} NoKids(sh: Shape, p: seq<Byte>)
    requires sh.Keys == Prefixes(p)
    ensures Kids(sh, p) == {}
  {}

  /** A prefix inserted twice with value 0 and then deleted leaves a node without
      prefixes and children behind. */
  lemma {:induction false} ZeroTwiceLeavesNode(s: seq<bool>)
    requires Path(s) != []
    ensures var sh := RunShape(true, Again(s, 2) + [DeleteCmd(s)]);
            && Stored(sh) == imap[] && Path(s) in sh && !Useful(sh, Path(s)) && sh[Path(s)].count == 1
  {
    hide Path, Rest, RestKey, RunShape, Kids, Prefixes, RunMap;
    var sh := RunShape(true, Again(s, 2));
    InsertedAgain(s, 2);
    RunOne(true, Again(s, 2), DeleteCmd(s));
    NoKids(sh, Path(s));
    var new_ := Remove(sh, s);
    assert new_[Path(s)] == Cell(map[], 1) && !Goes(new_, Path(s));
    assert new_.Keys == sh.Keys;
    NoKids(new_, Path(s));
    assert DeleteShape(sh, s) == new_;
    hide Find;
    forall t ensures Find(new_, t).None? {
      RemoveFinds(sh, s, t);
      OnlyAgain(sh, s, t);
    }
  }

  // After such inserts nothing else is stored.
  lemma {:induction false} OnlyAgain(sh: Shape, s: seq<bool>, t: seq<bool>)
    requires exists n :: n > 0 && sh == RunShape(true, Again(s, n))
    ensures t != s ==> Find(sh, t).None?
  {
    hide Find, RunShape, RunMap, Fails;
    var n :| n > 0 && sh == RunShape(true, Again(s, n));
    InsertedAgain(s, n);
    InsertsAgree(s, n);
    assert t in Stored(sh) <==> t in imap[s := 0];
  }

  lemma {:induction false} InsertsAgree(s: seq<bool>, n: nat)
    ensures Stored(RunShape(true, Again(s, n))) == RunMap(Again(s, n))
  {
    hide Find, RunShape, RunMap, Stored, Sound;
    if n == 0 {
      RunNothing();
      EmptyShape();
    } else {
      InsertsAgree(s, n - 1);
      RunOne(true, Again(s, n - 1), InsertCmd(s, 0));
      RunSound(true, Again(s, n - 1));
      StepIff(true, RunShape(true, Again(s, n - 1)), InsertCmd(s, 0));
    }
  }

  /** 256 inserts of one prefix with value 0 bring the counter back to 0. Adding and
      deleting another prefix of the node then frees it, and the first is lost. */
  lemma {:induction false} ZeroAgainLosesPrefix(a: seq<bool>, b: seq<bool>, v: nat)
    requires a != b && Path(a) == Path(b) != []
    ensures var cmds := Again(a, 256) + [InsertCmd(b, v)] + [DeleteCmd(b)];
            Find(RunShape(true, cmds), a).None? && RunMap(cmds) == imap[a := 0]
  {
    hide Path, Rest, RestKey, RunShape, Kids, Prefixes, RunMap, InsertShape, DeleteShape, Prune;
    var (start, p) := (Again(a, 256), Path(a));
    InsertedAgain(a, 256);
    RunOne(true, start, InsertCmd(b, v));
    RunOne(true, start + [InsertCmd(b, v)], DeleteCmd(b));
    var sh := RunShape(true, start + [InsertCmd(b, v)]);
    InsertAt(RunShape(true, start), b, v);
    RootIsPrefix(p);
    assert sh.Keys == Prefixes(p);
    WrapsToZero(sh, a, b, v);
    assert imap[a := 0][b := v] - {b} == imap[a := 0];
  }

  lemma {:induction false} WrapsToZero(sh: Shape, a: seq<bool>, b: seq<bool>, v: nat)
    requires a != b && Path(a) == Path(b) != [] && sh.Keys == Prefixes(Path(a)) && Path(a) in sh
    requires sh[Path(a)] == Put(Cell(map[RestKey(Rest(a)) := 0], 256 % 256), RestKey(Rest(b)), v)
    ensures Find(DeleteShape(sh, b), a).None?
  {
    hide Path, Rest, RestKey, Kids, Prefixes, Prune;
    if RestKey(Rest(a)) == RestKey(Rest(b)) { PlaceInjective(a, b); }
    var mid := Remove(sh, b);
    assert mid.Keys == sh.Keys && mid[Path(b)].count == 0;
    NoKids(mid, Path(b));
    assert Goes(mid, Path(b));
    PruneFinds(mid, Path(b), a);
    TopIsPrefix(mid, Path(b));
  }

  /** A trie with all 256 children below one node that holds a prefix itself. */
  function Fill(b: Byte, n: nat): seq<Command>
    requires n <= 256
  {
    if n == 0 then [InsertCmd(BitsOf([b]), 1)] else Fill(b, n - 1) + [InsertCmd(BitsOf([b, ByteOf(n - 1)]), 1)]
  }

  lemma {:induction false} WholeBytes(bytes: seq<Byte>)
    ensures Path(BitsOf(bytes)) == bytes && RestKey(Rest(BitsOf(bytes))) == 0
  {
    hide BitsOf;
    PlaceOf(bytes, 8 * |bytes|);
    assert BitsOf(bytes)[..8 * |bytes|] == BitsOf(bytes) && bytes[..|bytes|] == bytes;
  }

  function FirstBytes(n: nat): set<Byte>
    requires n <= 256
  {
    if n == 0 then {} else FirstBytes(n - 1) + {ByteOf(n - 1)}
  }

  lemma {:induction false} FirstBytesSize(n: nat)
    requires n <= 256
    ensures |FirstBytes(n)| == n && forall b :: b in FirstBytes(n) ==> Nat(b) < n
  {
    hide Nat, ByteOf;
    if n > 0 {
      FirstBytesSize(n - 1);
      assert Nat(ByteOf(n - 1)) == n - 1;
    }
  }

  ghost predicate FilledTo(sh: Shape, b: Byte, n: nat)
    requires n <= 256
  {
    && [b] in sh && sh[[b]] == Cell(map[0 := 1], 1)
    && (forall t :: Find(sh, t) != Some(0))
    && forall i :: 0 <= i < n ==> Find(sh, BitsOf([b, ByteOf(i)])) == Some(1)
  }

  lemma {:induction false} Filled(b: Byte, n: nat)
    requires n <= 256
    ensures FilledTo(RunShape(true, Fill(b, n)), b, n) && WellShaped(RunShape(true, Fill(b, n)))
  {
    hide RunShape, InsertShape, ByteOf, WellShaped, BitsOf, FilledTo;
    if n == 0 {
      RunOne(true, [], InsertCmd(BitsOf([b]), 1));
      assert [] + [InsertCmd(BitsOf([b]), 1)] == Fill(b, 0);
      RunNothing();
      EmptyShape();
      FillStart(b);
    } else {
      Filled(b, n - 1);
      FillStep(RunShape(true, Fill(b, n - 1)), b, n);
      RunOne(true, Fill(b, n - 1), InsertCmd(BitsOf([b, ByteOf(n - 1)]), 1));
    }
  }

  lemma {:induction false} FillStart(b: Byte)
    ensures var sh := InsertShape(map[[] := NEW], BitsOf([b]), 1); FilledTo(sh, b, 0) && WellShaped(sh)
  {
    hide Path, Rest, RestKey, InsertShape, WellShaped, Find, BitsOf;
    var s := BitsOf([b]);
    WholeBytes([b]);
    EmptyShape();
    InsertAt(map[[] := NEW], s, 1);
    RootIsPrefix([b]);
    assert NEW.held[0 := 1] == map[0 := 1] && Put(NEW, 0, 1) == Cell(map[0 := 1], 1);
    assert [b] !in map[[] := NEW];
    var sh := InsertShape(map[[] := NEW], s, 1);
    assert [b] in sh && sh[[b]] == Cell(map[0 := 1], 1);
    forall t ensures Find(map[[] := NEW], t).None? { NotThere(t); }
    InsertWell(map[[] := NEW], s, 1);
    forall t ensures Find(InsertShape(map[[] := NEW], s, 1), t) != Some(0) { InsertFinds(map[[] := NEW], s, 1, t); }
  }

  lemma {:induction false} NotThere(s: seq<bool>)
    ensures Find(map[[] := NEW], s) == None
  {}

  lemma {:induction false} InsertWell(sh: Shape, s: seq<bool>, v: nat)
    requires WellShaped(sh) && Find(sh, s) != Some(0)
    ensures WellShaped(InsertShape(sh, s, v))
  {
    hide Sound, Pruned, Exact, Find, InsertShape;
    InsertStores(sh, s, v);
  }

  lemma {:induction false} FillStep(sh: Shape, b: Byte, n: nat)
    requires 0 < n <= 256 && FilledTo(sh, b, n - 1) && WellShaped(sh)
    ensures var new_ := InsertShape(sh, BitsOf([b, ByteOf(n - 1)]), 1); FilledTo(new_, b, n) && WellShaped(new_)
  {
    hide Path, Rest, RestKey, InsertShape, WellShaped, Find, BitsOf, ByteOf;
    var s := BitsOf([b, ByteOf(n - 1)]);
    WholeBytes([b, ByteOf(n - 1)]);
    InsertAt(sh, s, 1);
    InsertWell(sh, s, 1);
    forall t
      ensures Find(InsertShape(sh, s, 1), t) == if t == s then Some(1) else Find(sh, t)
    {
      InsertFinds(sh, s, 1, t);
    }
  }

  lemma {:induction false} FilledKids(sh: Shape, b: Byte, n: nat)
    requires n <= 256 && forall i :: 0 <= i < n ==> Find(sh, BitsOf([b, ByteOf(i)])) == Some(1)
    ensures FirstBytes(n) <= Kids(sh, [b])
  {
    hide Path, Rest, RestKey, Find, BitsOf, ByteOf, Kids;
    if n > 0 {
      FilledKids(sh, b, n - 1);
      FoundAt(sh, BitsOf([b, ByteOf(n - 1)]));
      WholeBytes([b, ByteOf(n - 1)]);
      assert [b] + [ByteOf(n - 1)] == [b, ByteOf(n - 1)];
      KidsIff(sh, [b], ByteOf(n - 1));
    }
  }

  lemma {:induction false} AllKids(sh: Shape, b: Byte)
    requires FilledTo(sh, b, 256)
    ensures |Kids(sh, [b])| == 256
  {
    hide Find, BitsOf, ByteOf, Kids, FirstBytes;
    FilledKids(sh, b, 256);
    FirstBytesSize(256);
    AtMost256(Kids(sh, [b]));
    SubsetSize(FirstBytes(256), Kids(sh, [b]));
  }

  /** The run that fails with exact counters: after a prefix of eight bits and the 256
      prefixes of sixteen bits below it are inserted, deleting the first overflows and
      loses all the others. */
  lemma {:induction false} FullNodeOverflows(b: Byte, i: nat)
    requires i < 256
    ensures WellShaped(RunShape(true, Fill(b, 256))) && Overflows(RunShape(true, Fill(b, 256)), BitsOf([b]))
    ensures Find(RunShape(true, Fill(b, 256)), BitsOf([b, ByteOf(i)])) == Some(1)
    ensures Find(RunShape(true, Fill(b, 256) + [DeleteCmd(BitsOf([b]))]), BitsOf([b, ByteOf(i)])) == None
  {
    hide RunShape, ByteOf, WellShaped, BitsOf, Kids, Fill, Path, Rest, RestKey, DeleteShape;
    var sh := RunShape(true, Fill(b, 256));
    Filled(b, 256);
    WholeBytes([b]);
    WholeBytes([b, ByteOf(i)]);
    AllKids(sh, b);
    assert sh[[b]].held.Keys == {0};
    RunOne(true, Fill(b, 256), DeleteCmd(BitsOf([b])));
    OverflowFinds(sh, BitsOf([b]));
  }

  // ----- the linked structure -----------------------------------------------

  class Node {
    var branches: map<Byte, Node>
    var prefixes: map<nat, nat>
    var branchNum: nat
    var prefNum: nat
    var parent: Node?
    var childId: Byte

    constructor (parent: Node?, childId: Byte)
      ensures branches == map[] && prefixes == map[] && branchNum == 0 && prefNum == 0
      ensures this.parent == parent && this.childId == childId
    {
      branches, prefixes, branchNum, prefNum := map[], map[], 0, 0;
      this.parent, this.childId := parent, childId;
    }
  }

  /** The fields of a node, and those of all nodes by path. */
  datatype Fields = Fields(branches: map<Byte, Node>, prefixes: map<nat, nat>, branchNum: nat, prefNum: nat,
                           parent: Node?, childId: Byte)
  type Graph = map<seq<Byte>, Fields>

  function Child(p: seq<Byte>, b: Byte): (q: seq<Byte>)
    ensures q != [] && q[..|q| - 1] == p && q[|q| - 1] == b
  {
    p + [b]
  }

  type Nodes = map<seq<Byte>, Node>

  /** The branches of the node at `p` lead to the nodes one byte further. */
  ghost predicate Down(nodes: Nodes, g: Graph, p: seq<Byte>)
    requires p in g
  {
    forall b :: b in g[p].branches ==> Child(p, b) in nodes && nodes[Child(p, b)] == g[p].branches[b]
  }

  /** `parent` and `childId` invert the branch that leads to the node at `p`. */
  ghost predicate Up(nodes: Nodes, g: Graph, p: seq<Byte>)
    requires p in g
  {
    if p == [] then g[p].parent == null
    else
      var up := p[..|p| - 1];
      && up in nodes && up in g && g[p].parent == nodes[up]
      && g[p].childId == p[|p| - 1] && g[p].childId in g[up].branches
  }

  /** The branch counter holds the real number modulo 256. */
  ghost predicate Counted(f: Fields) {
    f.branchNum == |f.branches| % 256
  }

  ghost predicate LinkedGraph(nodes: Nodes, g: Graph) {
    && [] in nodes && nodes.Keys == g.Keys
    && (forall p, q :: p in nodes && q in nodes && nodes[p] == nodes[q] ==> p == q)
    && (forall p :: p in g ==> Down(nodes, g, p) && Up(nodes, g, p) && Counted(g[p]))
  }

  function ShapeOf(g: Graph): Shape {
    map p | p in g :: Cell(g[p].prefixes, g[p].prefNum)
  }

  function WithChild(nodes: Nodes, g: Graph, p: seq<Byte>, b: Byte, node: Node): Graph
    requires p in nodes && p in g
  {
    g[p := g[p].(branches := g[p].branches[b := node], branchNum := Increment(g[p].branchNum))]
     [Child(p, b) := Fields(map[], map[], 0, 0, nodes[p], b)]
  }

  /** Linking a fresh child keeps the structure linked. */
  lemma {:induction false} ChildAdded(nodes: Nodes, g: Graph, p: seq<Byte>, b: Byte, node: Node)
    requires LinkedGraph(nodes, g) && p in nodes && b !in g[p].branches && node !in nodes.Values
    ensures Child(p, b) !in nodes
    ensures LinkedGraph(nodes[Child(p, b) := node], WithChild(nodes, g, p, b, node))
  {
    hide Child, WithChild, Down, Up, Counted;
    var (nodes', g') := (nodes[Child(p, b) := node], WithChild(nodes, g, p, b, node));
    NoSuchChild(nodes, g, p, b);
    WithChildKeys(nodes, g, p, b, node);
    forall q | q in g' ensures Down(nodes', g', q) && Up(nodes', g', q) && Counted(g'[q]) {
      ChildAddedDown(nodes, g, p, b, node, q);
      ChildAddedCounted(nodes, g, p, b, node, q);
      ChildAddedUp(nodes, g, p, b, node, q);
    }
  }

  lemma {:induction false} NoSuchChild(nodes: Nodes, g: Graph, p: seq<Byte>, b: Byte)
    requires LinkedGraph(nodes, g) && p in nodes && b !in g[p].branches
    ensures Child(p, b) !in nodes && Child(p, b) !in g
  {
    hide Child, Down, Counted;
    assert Child(p, b) in g ==> Up(nodes, g, Child(p, b));
  }

  lemma {:induction false} WithChildKeys(nodes: Nodes, g: Graph, p: seq<Byte>, b: Byte, node: Node)
    requires p in nodes && p in g && Child(p, b) !in g
    ensures WithChild(nodes, g, p, b, node).Keys == g.Keys + {Child(p, b)}
    ensures ShapeOf(WithChild(nodes, g, p, b, node)) == ShapeOf(g)[Child(p, b) := NEW]
    ensures forall q :: q in g && q != p ==> WithChild(nodes, g, p, b, node)[q] == g[q]
    ensures WithChild(nodes, g, p, b, node)[p] ==
            g[p].(branches := g[p].branches[b := node], branchNum := Increment(g[p].branchNum))
    ensures WithChild(nodes, g, p, b, node)[Child(p, b)] == Fields(map[], map[], 0, 0, nodes[p], b)
  {
    hide Child;
  }

  lemma {:induction false} ChildAddedDown(nodes: Nodes, g: Graph, p: seq<Byte>, b: Byte, node: Node, q: seq<Byte>)
    requires p in nodes && p in g && b !in g[p].branches && Child(p, b) !in g && Child(p, b) !in nodes
    requires q in WithChild(nodes, g, p, b, node)
    requires q in g ==> Down(nodes, g, q)
    ensures Down(nodes[Child(p, b) := node], WithChild(nodes, g, p, b, node), q)
  {
    hide Child;
    assert forall c :: Child(q, c) == Child(p, b) ==> c == b;
  }

  lemma {:induction false} ChildAddedCounted(nodes: Nodes, g: Graph, p: seq<Byte>, b: Byte, node: Node, q: seq<Byte>)
    requires p in nodes && p in g && b !in g[p].branches && Child(p, b) !in g
    requires q in WithChild(nodes, g, p, b, node)
    requires q in g ==> Counted(g[q])
    ensures Counted(WithChild(nodes, g, p, b, node)[q])
  {
    hide Child, WithChild, Counted;
    WithChildAt(nodes, g, p, b, node, q);
    if q == p {
      OneMoreCounted(g[p], WithChild(nodes, g, p, b, node)[p], b, node);
    } else if q == Child(p, b) {
      NoneCounted(nodes[p], b);
    }
  }

  lemma {:induction false} OneMoreCounted(f: Fields, f': Fields, b: Byte, node: Node)
    requires Counted(f) && b !in f.branches
    requires f'.branches == f.branches[b := node] && f'.branchNum == Increment(f.branchNum)
    ensures Counted(f')
  {
    LargerMap(f.branches, b, node);
  }

  lemma {:induction false} NoneCounted(parent: Node, b: Byte)
    ensures Counted(Fields(map[], map[], 0, 0, parent, b))
  {}

  lemma {:induction false} WithChildAt(nodes: Nodes, g: Graph, p: seq<Byte>, b: Byte, node: Node, q: seq<Byte>)
    requires p in nodes && p in g && Child(p, b) !in g && q in WithChild(nodes, g, p, b, node)
    ensures q != p && q != Child(p, b) ==> q in g && WithChild(nodes, g, p, b, node)[q] == g[q]
    ensures q == p ==> WithChild(nodes, g, p, b, node)[q].branches == g[p].branches[b := node]
    ensures q == p ==> WithChild(nodes, g, p, b, node)[q].branchNum == Increment(g[p].branchNum)
    ensures q == Child(p, b) ==> WithChild(nodes, g, p, b, node)[q] == Fields(map[], map[], 0, 0, nodes[p], b)
  {
    hide Child;
  }

  lemma {:induction false} LargerMap(m: map<Byte, Node>, b: Byte, node: Node)
    requires b !in m
    ensures |m[b := node]| == |m| + 1
  {
    assert m[b := node].Keys == m.Keys + {b};
    assert |m[b := node]| == |m[b := node].Keys| && |m| == |m.Keys|;
  }

  lemma {:induction false} ChildAddedUp(nodes: Nodes, g: Graph, p: seq<Byte>, b: Byte, node: Node, q: seq<Byte>)
    requires p in nodes && p in g && b !in g[p].branches && Child(p, b) !in g && Child(p, b) !in nodes
    requires q in WithChild(nodes, g, p, b, node)
    requires q in g ==> Up(nodes, g, q)
    ensures Up(nodes[Child(p, b) := node], WithChild(nodes, g, p, b, node), q)
  {
    hide Child;
  }

  function WithCell(g: Graph, p: seq<Byte>, c: Cell): Graph
    requires p in g
  {
    g[p := g[p].(prefixes := c.held, prefNum := c.count)]
  }

  /** Changing the prefixes of a node and their counter keeps the structure linked. */
  lemma {:induction false} PrefixesChanged(nodes: Nodes, g: Graph, p: seq<Byte>, c: Cell)
    requires LinkedGraph(nodes, g) && p in g
    ensures LinkedGraph(nodes, WithCell(g, p, c))
    ensures ShapeOf(WithCell(g, p, c)) == ShapeOf(g)[p := c]
  {
    hide Child, Down, Up, Counted;
    forall q | q in g ensures Down(nodes, WithCell(g, p, c), q) && Up(nodes, WithCell(g, p, c), q)
                           && Counted(WithCell(g, p, c)[q]) {
      PrefixesChangedAt(nodes, g, p, c, q);
    }
  }

  lemma {:induction false} PrefixesChangedAt(nodes: Nodes, g: Graph, p: seq<Byte>, c: Cell, q: seq<Byte>)
    requires p in g && q in g && Down(nodes, g, q) && Up(nodes, g, q) && Counted(g[q])
    ensures Down(nodes, WithCell(g, p, c), q) && Up(nodes, WithCell(g, p, c), q)
    ensures Counted(WithCell(g, p, c)[q])
  {
    hide Child;
  }

  function CutNodes(nodes: Nodes, p: seq<Byte>): Nodes {
    map q | q in nodes && !(p <= q) :: nodes[q]
  }

  /** The structure once the branch to `p` is deleted from its parent. */
  function CutGraph(g: Graph, p: seq<Byte>): Graph
    requires p != [] && p[..|p| - 1] in g
  {
    var up := p[..|p| - 1];
    var kept := map q | q in g && !(p <= q) :: g[q];
    kept[up := g[up].(branches := g[up].branches - {p[|p| - 1]}, branchNum := Decrement(g[up].branchNum))]
  }

  lemma {:induction false} SubtreeCut(nodes: Nodes, g: Graph, p: seq<Byte>)
    requires LinkedGraph(nodes, g) && p in g && p != []
    ensures p[..|p| - 1] in g && p[|p| - 1] in g[p[..|p| - 1]].branches
    ensures LinkedGraph(CutNodes(nodes, p), CutGraph(g, p))
    ensures ShapeOf(CutGraph(g, p)) == Cut(ShapeOf(g), p)
  {
    hide Child, Down, Up, Counted, CutGraph, Cut, ShapeOf, CutNodes;
    ParentLinked(nodes, g, p);
    CutKeys(nodes, g, p);
    forall q | q in CutGraph(g, p)
      ensures Down(CutNodes(nodes, p), CutGraph(g, p), q) && Up(CutNodes(nodes, p), CutGraph(g, p), q)
           && Counted(CutGraph(g, p)[q])
    {
      SubtreeCutDown(nodes, g, p, q);
      SubtreeCutCounted(g, p, q);
      SubtreeCutUp(nodes, g, p, q);
    }
  }

  lemma {:induction false} ParentLinked(nodes: Nodes, g: Graph, p: seq<Byte>)
    requires p in g && p != [] && Up(nodes, g, p)
    ensures p[..|p| - 1] in g && p[..|p| - 1] in nodes && p[|p| - 1] in g[p[..|p| - 1]].branches
    ensures g[p].parent == nodes[p[..|p| - 1]] && g[p].childId == p[|p| - 1]
  {}

  lemma {:induction false} CutKeys(nodes: Nodes, g: Graph, p: seq<Byte>)
    requires p != [] && p[..|p| - 1] in g && nodes.Keys == g.Keys && [] in nodes
    requires forall p, q :: p in nodes && q in nodes && nodes[p] == nodes[q] ==> p == q
    ensures CutNodes(nodes, p).Keys == CutGraph(g, p).Keys <= g.Keys && [] in CutNodes(nodes, p)
    ensures var left := CutNodes(nodes, p);
            forall r, q :: r in left && q in left && left[r] == left[q] ==> r == q
    ensures ShapeOf(CutGraph(g, p)) == Cut(ShapeOf(g), p)
  {}

  lemma {:induction false} CutAt(nodes: Nodes, g: Graph, p: seq<Byte>)
    requires p != [] && p[..|p| - 1] in g && nodes.Keys == g.Keys && [] in nodes
    ensures CutNodes(nodes, p).Keys == CutGraph(g, p).Keys && [] in CutNodes(nodes, p)
    ensures p[..|p| - 1] in CutNodes(nodes, p)
    ensures forall q :: q in CutNodes(nodes, p) ==> q in nodes && CutNodes(nodes, p)[q] == nodes[q]
    ensures
      var up := p[..|p| - 1];
      var f := g[up].(branches := g[up].branches - {p[|p| - 1]}, branchNum := Decrement(g[up].branchNum));
      forall q :: q in CutGraph(g, p) ==> q in g && CutGraph(g, p)[q] == if q == up then f else g[q]
  {}

  lemma {:induction false} SubtreeCutDown(nodes: Nodes, g: Graph, p: seq<Byte>, q: seq<Byte>)
    requires p != [] && p[..|p| - 1] in g
    requires q in CutGraph(g, p) && q in g && Down(nodes, g, q)
    ensures Down(CutNodes(nodes, p), CutGraph(g, p), q)
  {
    hide Child;
    forall b | b in CutGraph(g, p)[q].branches
      ensures Child(q, b) in CutNodes(nodes, p) && CutNodes(nodes, p)[Child(q, b)] == CutGraph(g, p)[q].branches[b]
    {
      OutsideCut(p, q, b);
    }
  }

  lemma {:induction false} SubtreeCutCounted(g: Graph, p: seq<Byte>, q: seq<Byte>)
    requires p != [] && p[..|p| - 1] in g && p[|p| - 1] in g[p[..|p| - 1]].branches
    requires q in CutGraph(g, p) && q in g && Counted(g[q])
    ensures Counted(CutGraph(g, p)[q])
  {
    if q == p[..|p| - 1] { SmallerMap(g[q].branches, p[|p| - 1]); }
  }

  lemma {:induction false} OutsideCut(p: seq<Byte>, q: seq<Byte>, b: Byte)
    requires p != []
    ensures p <= Child(q, b) <==> p <= q || (q == p[..|p| - 1] && b == p[|p| - 1])
  {
    if p <= Child(q, b) && !(p <= q) { assert p == Child(q, b); }
    if q == p[..|p| - 1] && b == p[|p| - 1] { assert p == Child(q, b); }
  }

  lemma {:induction false} SmallerMap(m: map<Byte, Node>, b: Byte)
    requires b in m
    ensures |m - {b}| == |m| - 1
  {
    assert (m - {b}).Keys == m.Keys - {b};
    assert |m.Keys - {b}| == |m.Keys| - 1;
  }

  lemma {:induction false} SubtreeCutUp(nodes: Nodes, g: Graph, p: seq<Byte>, q: seq<Byte>)
    requires p != [] && p[..|p| - 1] in g && p[..|p| - 1] in nodes
    requires q in CutGraph(g, p) && q in g && Up(nodes, g, q)
    ensures Up(CutNodes(nodes, p), CutGraph(g, p), q)
  {
    if q != [] {
      var up := q[..|q| - 1];
      assert p <= up ==> p <= q;
      assert up == p[..|p| - 1] && q[|q| - 1] == p[|p| - 1] ==> q == p;
    }
  }

  lemma {:induction false} BranchesAreKids(nodes: Nodes, g: Graph, p: seq<Byte>)
    requires LinkedGraph(nodes, g) && p in g
    ensures g[p].branches.Keys == Kids(ShapeOf(g), p)
  {
    hide Kids;
    assert Down(nodes, g, p);
    forall b ensures b in g[p].branches.Keys <==> b in Kids(ShapeOf(g), p) {
      KidsIff(ShapeOf(g), p, b);
      assert Child(p, b) == p + [b];
      if Child(p, b) in g { assert Up(nodes, g, Child(p, b)); }
    }
  }

  lemma {:induction false} RootLinked(root: Node, f: Fields)
    requires f == Fields(map[], map[], 0, 0, null, Zeros(8))
    ensures LinkedGraph(map[[] := root], map[[] := f])
    ensures ShapeOf(map[[] := f]) == map[[] := NEW] && Sound(map[[] := NEW])
  {
    EmptyShape();
    assert ShapeOf(map[[] := f]) == map[[] := NEW];
  }

  class Trie {
    var root: Node
    const releaseMemory: bool
    ghost var nodes: Nodes
    ghost var graph: Graph

    /** `graph` records the fields of every node. */
    ghost predicate Recorded()
      reads this, nodes.Values
    {
      nodes.Keys == graph.Keys && forall p :: p in nodes ==> FieldsOf(nodes[p]) == graph[p]
    }

    ghost predicate Links()
      reads this, nodes.Values
    {
      && [] in nodes && nodes[[]] == root
      && Recorded() && LinkedGraph(nodes, graph)
    }

    ghost function Shape(): Shape
      reads this
    {
      ShapeOf(graph)
    }

    /** The nodes are linked both ways and the branch counters count. */
    ghost predicate Valid()
      reads this, nodes.Values
    {
      Links() && Sound(Shape())
    }

    constructor (autoShrink: bool)
      ensures Valid() && Shape() == map[[] := NEW] && releaseMemory == autoShrink
      ensures fresh(nodes.Values)
    {
      root := new Node(null, Zeros(8));
      releaseMemory := autoShrink;
      new;
      hide LinkedGraph, Sound, ShapeOf;
      nodes := map[[] := root];
      graph := map[[] := FieldsOf(root)];
      RootLinked(root, FieldsOf(root));
    }

    // Everything is recorded, but the node at `p` may have changed.
    ghost predicate RecordedBut(p: seq<Byte>)
      reads this, nodes.Values
    {
      nodes.Keys == graph.Keys && forall q :: q in nodes && q != p ==> FieldsOf(nodes[q]) == graph[q]
    }

    method AddChild(ghost p: seq<Byte>, current: Node, byte: Byte) returns (node: Node)
      requires Links() && p in nodes && nodes[p] == current && byte !in current.branches
      modifies this`nodes, this`graph, current
      ensures Links() && fresh(node) && nodes == old(nodes)[Child(p, byte) := node]
      ensures Shape() == old(Shape())[Child(p, byte) := NEW]
    {
      hide LinkedGraph, Child, ShapeOf, WithChild;
      SameNodes(nodes, graph, p);
      node := LinkChild(current, byte);
      assert RecordedBut(p);
      RecordChild(p, byte, node);
    }

    ghost method RecordChild(p: seq<Byte>, byte: Byte, node: Node)
      requires [] in nodes && nodes[[]] == root && LinkedGraph(nodes, graph)
      requires p in nodes && RecordedBut(p) && byte !in graph[p].branches && node !in nodes.Values
      requires FieldsOf(nodes[p]) ==
        graph[p].(branches := graph[p].branches[byte := node], branchNum := Increment(graph[p].branchNum))
      requires FieldsOf(node) == Fields(map[], map[], 0, 0, nodes[p], byte)
      modifies this`nodes, this`graph
      ensures Links() && nodes == old(nodes)[Child(p, byte) := node]
      ensures Shape() == old(Shape())[Child(p, byte) := NEW]
    {
      hide LinkedGraph, Child, ShapeOf, WithChild, FieldsOf;
      SameNodes(nodes, graph, p);
      NoSuchChild(nodes, graph, p, byte);
      ChildAdded(nodes, graph, p, byte, node);
      WithChildKeys(nodes, graph, p, byte, node);
      nodes, graph := nodes[Child(p, byte) := node], WithChild(nodes, graph, p, byte, node);
    }

    ghost method RecordPrefixes(p: seq<Byte>, c: Cell)
      requires [] in nodes && nodes[[]] == root && LinkedGraph(nodes, graph)
      requires p in nodes && RecordedBut(p)
      requires FieldsOf(nodes[p]) == graph[p].(prefixes := c.held, prefNum := c.count)
      modifies this`graph
      ensures Links() && Shape() == old(Shape())[p := c]
    {
      hide LinkedGraph, FieldsOf, ShapeOf;
      PrefixesChanged(nodes, graph, p, c);
      graph := WithCell(graph, p, c);
    }

    /** The branch taken on `byte` leads one byte further. */
    lemma {:induction false} Branch(p: seq<Byte>, byte: Byte)
      requires Links() && p in nodes
      ensures byte in nodes[p].branches <==> Child(p, byte) in nodes
      ensures byte in nodes[p].branches ==> nodes[p].branches[byte] == nodes[Child(p, byte)]
    {
      hide Child, Up, Counted;
      assert Down(nodes, graph, p);
      if byte !in nodes[p].branches { NoSuchChild(nodes, graph, p, byte); }
    }

    /** The descent shared by retrieval and deletion; null when a node is missing. */
    method Walk(prefix: seq<Byte>, length: nat) returns (current: Node?, rem: nat, i: nat)
      requires Valid() && length <= 8 * |prefix|
      ensures i <= length / 8
      ensures current == null ==> prefix[..length / 8] !in nodes
      ensures current != null ==> i == length / 8 && rem == length % 8
      ensures current != null ==> prefix[..i] in nodes && current == nodes[prefix[..i]]
    {
      hide LinkedGraph, Recorded, Sound;
      current, rem, i := root, length, 0;
      assert prefix[..0] == [];
      while rem >= 8
        invariant 8 * i + rem == length
        invariant prefix[..i] in nodes && current == nodes[prefix[..i]]
      {
        var byte := prefix[i];
        assert Child(prefix[..i], byte) == prefix[..i + 1];
        Branch(prefix[..i], byte);
        if byte !in current.branches {
          ShapeClosed(Shape());
          Missing(nodes, graph, prefix, i + 1, length / 8);
          return null, rem, i;
        }
        current, rem, i := current.branches[byte], rem - 8, i + 1;
      }
    }

    /** bf_lpm_trie_retrieve_value. */
    method Retrieve(prefix: seq<Byte>, length: nat) returns (r: Option<nat>)
      requires Valid() && length <= 8 * |prefix|
      ensures r == Find(Shape(), BitsOf(prefix)[..length])
    {
      hide LinkedGraph, Sound, BitsOf, PrefixKey;
      var current, rem, i := Walk(prefix, length);
      PlaceOf(prefix, length);
      ShapeKeys(nodes, graph);
      if current == null { return None; }
      var key := if rem == 0 then 0 else PrefixKey(rem, prefix[i]);
      r := if key in current.prefixes then Some(current.prefixes[key]) else None;
    }

    /** bf_lpm_trie_lookup returns the value of the longest stored prefix. */
    method Lookup(key: seq<Byte>) returns (r: Option<nat>)
      requires Valid()
      ensures r == Longest(Shape(), BitsOf(key), 8 * |key|)
    {
      hide LinkedGraph, Sound, BitsOf, Longest, Find, PrefixKey, Recorded;
      r := None;
      var current: Node? := root;
      var i := 0;
      assert key[..0] == [];
      while current != null
        invariant i <= |key|
        invariant current != null ==> key[..i] in nodes && current == nodes[key[..i]]
        invariant current == null ==> key[..i] !in nodes
        invariant i == 0 ==> current != null && r == None
        invariant i > 0 ==> r == Longest(Shape(), BitsOf(key), 8 * i - 1)
        decreases |key| - i, current != null
      {
        AtNode(key, i, 8 * i);
        LongestStep(Shape(), BitsOf(key), 8 * i);
        if 0 in current.prefixes { r := Some(current.prefixes[0]); }
        if i == |key| { return; }
        var byte := key[i];
        var found := SubByte(key, i, current);
        if found.Some? { r := found; }
        assert Child(key[..i], byte) == key[..i + 1];
        Branch(key[..i], byte);
        current := if byte in current.branches then current.branches[byte] else null;
        i := i + 1;
      }
      ShapeKeys(nodes, graph);
      ShapeClosed(Shape());
      NothingBelow(Shape(), key, i, 8 * |key|);
    }

    /** The inner loop of the lookup, over the 7 to 1 leading bits of a byte. */
    method SubByte(key: seq<Byte>, i: nat, current: Node) returns (found: Option<nat>)
      requires Links() && i < |key| && key[..i] in nodes && current == nodes[key[..i]]
      ensures Longest(Shape(), BitsOf(key), 8 * i + 7) ==
        if found.Some? then found else Longest(Shape(), BitsOf(key), 8 * i)
    {
      hide LinkedGraph, BitsOf, Longest, Find, PrefixKey, Recorded;
      var bits := 7;
      while bits > 0
        invariant 0 <= bits <= 7
        invariant Longest(Shape(), BitsOf(key), 8 * i + 7) == Longest(Shape(), BitsOf(key), 8 * i + bits)
      {
        var k := PrefixKey(bits, key[i]);
        AtNode(key, i, 8 * i + bits);
        LongestStep(Shape(), BitsOf(key), 8 * i + bits);
        if k in current.prefixes { return Some(current.prefixes[k]); }
        bits := bits - 1;
      }
      found := None;
    }

    // What the node at `key[..i]` says about the prefixes of 8i to 8i+7 bits.
    lemma {:induction false} AtNode(key: seq<Byte>, i: nat, n: nat)
      requires Links() && n / 8 == i && n <= 8 * |key| && key[..i] in nodes
      ensures
        var k := if n % 8 == 0 then 0 else PrefixKey(n % 8, key[i]);
        var held := nodes[key[..i]].prefixes;
        Find(Shape(), BitsOf(key)[..n]) == if k in held then Some(held[k]) else None
    {
      hide BitsOf, PrefixKey, LinkedGraph;
      PlaceOf(key, n);
      ShapeKeys(nodes, graph);
    }

    /** bf_lpm_trie_delete; without release_memory it only looks. */
    method Delete(prefix: seq<Byte>, length: nat) returns (deleted: bool)
      requires Valid() && length <= 8 * |prefix|
      modifies this`nodes, this`graph, nodes.Values
      ensures Valid()
      ensures deleted <==> Find(old(Shape()), BitsOf(prefix)[..length]).Some?
      ensures Shape() == DeleteStep(releaseMemory, old(Shape()), BitsOf(prefix)[..length])
      ensures nodes.Values <= old(nodes.Values)
    {
      hide LinkedGraph, Sound, BitsOf, PrefixKey, Recorded, Prune;
      ghost var s := BitsOf(prefix)[..length];
      var current, rem, i := Walk(prefix, length);
      PlaceOf(prefix, length);
      ShapeKeys(nodes, graph);
      if current == null { return false; }
      var key := if rem == 0 then 0 else PrefixKey(rem, prefix[i]);
      AtNode(prefix, i, length);
      if key !in current.prefixes { return false; }
      if releaseMemory {
        DeleteSound(Shape(), s);
        RemovePrefix(prefix[..i], current, key);
        PruneUp(prefix[..i], current);
      }
      return true;
    }

    /** delete_prefix and the prefix counter. */
    method RemovePrefix(ghost p: seq<Byte>, current: Node, key: nat)
      requires Links() && p in nodes && nodes[p] == current && key in current.prefixes
      modifies this`graph, current
      ensures Links() && p in old(Shape()) && Shape() == old(Shape())[p := Drop(old(Shape())[p], key)]
    {
      hide LinkedGraph;
      SameNodes(nodes, graph, p);
      CountedAt(nodes, graph, p);
      current.prefixes := current.prefixes - {key};
      current.prefNum := Decrement(current.prefNum);
      assert RecordedBut(p);
      RecordPrefixes(p, Cell(current.prefixes, current.prefNum));
    }

    /** The upward loop of bf_lpm_trie_delete. */
    method PruneUp(ghost path: seq<Byte>, start: Node)
      requires Links() && path in nodes && nodes[path] == start
      modifies this`nodes, this`graph, nodes.Values
      ensures Links() && Shape() == Prune(old(Shape()), path)
      ensures nodes.Values <= old(nodes.Values)
    {
      hide LinkedGraph, Prune, Recorded, Cut, ShapeOf;
      var current := start;
      ghost var p := path;
      Counters(p);
      PruneStep(Shape(), p);
      while current.prefNum == 0 && current.branchNum == 0
        invariant Links() && p in nodes && nodes[p] == current
        invariant Prune(Shape(), p) == Prune(old(Shape()), path)
        invariant (current.prefNum == 0 && current.branchNum == 0) || Prune(Shape(), p) == Shape()
        invariant nodes.Values <= old(nodes.Values)
        decreases |p|
      {
        var tmp := current;
        Parent(p);
        Counters(p);
        PruneStep(Shape(), p);
        if tmp.parent == null { return; }
        current := tmp.parent;
        Unlink(p, current, tmp.childId);
        p := p[..|p| - 1];
        Counters(p);
        PruneStep(Shape(), p);
      }
    }

    // Reading the parent and the counters of the node at `p`.
    lemma {:induction false} Parent(p: seq<Byte>)
      requires Links() && p in nodes
      ensures nodes[p].parent == null <==> p == []
      ensures p != [] ==> p[..|p| - 1] in nodes && nodes[p].parent == nodes[p[..|p| - 1]]
      ensures p != [] ==> nodes[p].childId == p[|p| - 1] && nodes[p].childId in nodes[p[..|p| - 1]].branches
    {
      hide Down, Counted;
      assert Up(nodes, graph, p);
    }

    lemma {:induction false} Counters(p: seq<Byte>)
      requires Links() && p in nodes
      ensures p in Shape() && nodes[p].prefNum == Shape()[p].count
      ensures nodes[p].branchNum == |Kids(Shape(), p)| % 256
    {
      hide LinkedGraph, Kids;
      SameNodes(nodes, graph, p);
      CountedAt(nodes, graph, p);
      BranchesAreKids(nodes, graph, p);
      assert |nodes[p].branches| == |nodes[p].branches.Keys|;
    }

    /** delete_branch and the branch counter of the parent. */
    method Unlink(ghost p: seq<Byte>, up: Node, byte: Byte)
      requires Links() && p in nodes && p != [] && p[..|p| - 1] in nodes && nodes[p[..|p| - 1]] == up
      requires byte == p[|p| - 1]
      modifies this`nodes, this`graph, up
      ensures Links() && nodes == CutNodes(old(nodes), p) && Shape() == Cut(old(Shape()), p)
      ensures p[..|p| - 1] in nodes
    {
      hide LinkedGraph, ShapeOf, Cut;
      SameNodes(nodes, graph, p[..|p| - 1]);
      up.branches, up.branchNum := up.branches - {byte}, Decrement(up.branchNum);
      assert RecordedBut(p[..|p| - 1]);
      RecordCut(p);
    }

    ghost method RecordCut(p: seq<Byte>)
      requires [] in nodes && nodes[[]] == root && LinkedGraph(nodes, graph)
      requires p in nodes && p != [] && p[..|p| - 1] in nodes && RecordedBut(p[..|p| - 1])
      requires
        var f := graph[p[..|p| - 1]];
        FieldsOf(nodes[p[..|p| - 1]]) == f.(branches := f.branches - {p[|p| - 1]}, branchNum := Decrement(f.branchNum))
      modifies this`nodes, this`graph
      ensures Links() && nodes == CutNodes(old(nodes), p) && Shape() == Cut(old(Shape()), p)
      ensures p[..|p| - 1] in nodes
    {
      hide LinkedGraph, ShapeOf, Cut, FieldsOf, CutNodes, CutGraph;
      SubtreeCut(nodes, graph, p);
      CutAt(nodes, graph, p);
      nodes, graph := CutNodes(nodes, p), CutGraph(graph, p);
    }

    /** bf_lpm_trie_insert. */
    method Insert(prefix: seq<Byte>, length: nat, value: nat)
      requires Valid() && length <= 8 * |prefix|
      modifies this`nodes, this`graph, nodes.Values
      ensures Valid() && Shape() == InsertShape(old(Shape()), BitsOf(prefix)[..length], value)
      ensures fresh(nodes.Values - old(nodes.Values))
    {
      hide LinkedGraph, Sound, BitsOf, Find, Links, PrefixKey;
      var current, rem, i := EnsurePath(prefix, length);
      PlaceOf(prefix, length);
      var key := if rem == 0 then 0 else PrefixKey(rem, prefix[i]);
      InsertPrefix(prefix[..i], current, key, value);
      InsertStores(old(Shape()), BitsOf(prefix)[..length], value);
    }

    /** The descent of bf_lpm_trie_insert, creating the missing nodes. */
    method EnsurePath(prefix: seq<Byte>, length: nat) returns (current: Node, rem: nat, i: nat)
      requires Links() && length <= 8 * |prefix|
      modifies this`nodes, this`graph, nodes.Values
      ensures i == length / 8 && rem == length % 8 && Links()
      ensures prefix[..i] in nodes && current == nodes[prefix[..i]]
      ensures Shape() == AddPath(old(Shape()), prefix[..i])
      ensures fresh(nodes.Values - old(nodes.Values))
    {
      hide LinkedGraph, ShapeOf, Recorded, AddPath;
      current, rem, i := root, length, 0;
      AddNothing(Shape());
      assert prefix[..0] == [];
      AddRoot(nodes, graph);
      while rem >= 8
        invariant 8 * i + rem == length && Links()
        invariant prefix[..i] in nodes && current == nodes[prefix[..i]]
        invariant Shape() == AddPath(old(Shape()), prefix[..i])
        invariant fresh(nodes.Values - old(nodes.Values))
      {
        var byte := prefix[i];
        ghost var p := prefix[..i];
        assert Child(p, byte) == prefix[..i + 1];
        Branch(p, byte);
        AddPathStep(old(Shape()), p, byte);
        ShapeKeys(nodes, graph);
        var node;
        if byte in current.branches {
          node := current.branches[byte];
        } else {
          node := AddChild(p, current, byte);
        }
        current, rem, i := node, rem - 8, i + 1;
      }
    }

    /** insert_prefix and the prefix counter. */
    method InsertPrefix(ghost p: seq<Byte>, current: Node, key: nat, value: nat)
      requires Links() && p in nodes && nodes[p] == current
      modifies this`graph, current
      ensures Links() && p in old(Shape()) && Shape() == old(Shape())[p := Put(old(Shape())[p], key, value)]
    {
      hide LinkedGraph;
      SameNodes(nodes, graph, p);
      CountedAt(nodes, graph, p);
      var present := key in current.prefixes && current.prefixes[key] != 0;
      current.prefixes := current.prefixes[key := value];
      if !present { current.prefNum := Increment(current.prefNum); }
      assert RecordedBut(p);
      RecordPrefixes(p, Cell(current.prefixes, current.prefNum));
    }
  }

  /** allocate_node, set_next_node and the branch counter. */
  method LinkChild(current: Node, byte: Byte) returns (node: Node)
    modifies current
    ensures fresh(node) && FieldsOf(node) == Fields(map[], map[], 0, 0, current, byte)
    ensures FieldsOf(current) == old(FieldsOf(current)).(
      branches := old(current.branches)[byte := node], branchNum := Increment(old(current.branchNum)))
  {
    node := new Node(current, byte);
    current.branches := current.branches[byte := node];
    current.branchNum := Increment(current.branchNum);
  }

  function FieldsOf(n: Node): Fields
    reads n
  {
    Fields(n.branches, n.prefixes, n.branchNum, n.prefNum, n.parent, n.childId)
  }

  lemma {:induction false} SameNodes(ns: Nodes, g: Graph, p: seq<Byte>)
    requires LinkedGraph(ns, g) && p in ns
    ensures forall q :: q in ns && q != p ==> ns[q] != ns[p]
    ensures p in g && [] in ns && ns.Keys == g.Keys
  {
    hide Down, Up, Counted;
  }

  lemma {:induction false} AddNothing(sh: Shape)
    ensures [] in sh ==> AddPath(sh, []) == sh
  {
    var e: seq<Byte> := [];
    assert e[..0] == e;
    assert Prefixes(e) == {e};
  }

  lemma {:induction false} AddRoot(ns: Nodes, g: Graph)
    requires LinkedGraph(ns, g)
    ensures [] in ShapeOf(g)
  {
    hide Down, Up, Counted;
  }

  lemma {:induction false} ShapeKeys(ns: Nodes, g: Graph)
    requires LinkedGraph(ns, g)
    ensures ShapeOf(g).Keys == ns.Keys
  {
    hide Down, Up, Counted;
  }

  lemma {:induction false} CountedAt(ns: Nodes, g: Graph, p: seq<Byte>)
    requires LinkedGraph(ns, g) && p in g
    ensures Counted(g[p]) && p in ShapeOf(g) && ShapeOf(g)[p] == Cell(g[p].prefixes, g[p].prefNum)
  {
    hide Down, Up;
  }

  lemma {:induction false} AddPathStep(sh: Shape, p: seq<Byte>, b: Byte)
    ensures Child(p, b) in AddPath(sh, p) ==> AddPath(sh, Child(p, b)) == AddPath(sh, p)
    ensures Child(p, b) !in AddPath(sh, p) ==> AddPath(sh, Child(p, b)) == AddPath(sh, p)[Child(p, b) := NEW]
  {
    var path := Child(p, b);
    assert Prefixes(path) == Prefixes(p) + {path} by {
      assert path == path[..|path|];
      forall i | 0 <= i <= |p| ensures path[..i] == p[..i] {}
      forall q | q in Prefixes(path) ensures q in Prefixes(p) + {path} {
        var i :| 0 <= i <= |path| && q == path[..i];
        if i <= |p| { assert q == p[..i]; }
      }
      forall q | q in Prefixes(p) ensures q in Prefixes(path) {
        var i :| 0 <= i <= |p| && q == p[..i];
        assert q == path[..i];
      }
    }
    assert forall q :: q in Prefixes(p) ==> |q| <= |p|;
  }

  lemma {:induction false} Missing(ns: Nodes, g: Graph, prefix: seq<Byte>, i: nat, n: nat)
    requires LinkedGraph(ns, g) && Closed(ShapeOf(g)) && i <= n <= |prefix| && prefix[..i] !in ns
    ensures prefix[..n] !in ns
  {
    hide LinkedGraph, Closed, ShapeOf;
    ShapeKeys(ns, g);
    assert prefix[..n][..i] == prefix[..i];
    if prefix[..n] in ns { ClosedPrefix(ShapeOf(g), prefix[..n], i); }
  }

  lemma {:induction false} ShapeClosed(sh: Shape)
    requires Sound(sh)
    ensures Closed(sh)
  {}

  lemma {:induction false} LongestStep(sh: Shape, key: seq<bool>, n: nat)
    requires n <= |key|
    ensures Longest(sh, key, n) ==
      if Find(sh, key[..n]).Some? then Find(sh, key[..n]) else if n == 0 then None else Longest(sh, key, n - 1)
  {
    hide Find;
  }

  lemma {:induction false} SmallerPrefixes(m: map<nat, nat>, k: nat)
    requires k in m
    ensures |m - {k}| == |m| - 1
  {
    assert (m - {k}).Keys == m.Keys - {k};
    assert |m.Keys - {k}| == |m.Keys| - 1;
  }

  lemma {:induction false} PruneStep(sh: Shape, p: seq<Byte>)
    ensures Prune(sh, p) == if Goes(sh, p) then Prune(Cut(sh, p), p[..|p| - 1]) else sh
  {
    hide Kids, Cut;
  }

  // ----- runs of the linked structure ---------------------------------------

  datatype Call = InsertCall(prefix: seq<Byte>, length: nat, value: nat) | DeleteCall(prefix: seq<Byte>, length: nat)

  predicate InRange(c: Call) {
    c.length <= 8 * |c.prefix|
  }

  function ToCommand(c: Call): Command
    requires InRange(c)
  {
    var s := BitsOf(c.prefix)[..c.length];
    if c.InsertCall? then InsertCmd(s, c.value) else DeleteCmd(s)
  }

  function Commands(calls: seq<Call>): (r: seq<Command>)
    requires forall i :: 0 <= i < |calls| ==> InRange(calls[i])
    ensures |r| == |calls| && forall i :: 0 <= i < |r| ==> r[i] == ToCommand(calls[i])
  {
    seq(|calls|, i requires 0 <= i < |calls| => ToCommand(calls[i]))
  }

  /** Any run of calls on the linked structure gives the shape of that run, with both
      counters; RunAgreesIff and LookupAfterRun say what it holds. */
  method RunAll(autoShrink: bool, calls: seq<Call>) returns (t: Trie)
    requires forall i :: 0 <= i < |calls| ==> InRange(calls[i])
    ensures fresh(t) && t.Valid() && t.releaseMemory == autoShrink
    ensures t.Shape() == RunShape(autoShrink, Commands(calls))
  {
    hide LinkedGraph, Sound, Step, RunShape, ToCommand, ShapeOf, Trie.Valid, Trie.Shape;
    t := new Trie(autoShrink);
    RunStart(autoShrink);
    ghost var cmds := Commands(calls);
    assert cmds[..0] == [];
    for i := 0 to |calls|
      invariant fresh(t) && fresh(t.nodes.Values) && t.Valid() && t.releaseMemory == autoShrink
      invariant t.Shape() == RunShape(autoShrink, cmds[..i])
    {
      assert cmds[..i + 1] == cmds[..i] + [ToCommand(calls[i])];
      RunOne(autoShrink, cmds[..i], ToCommand(calls[i]));
      Perform(t, calls[i]);
    }
    assert cmds[..|cmds|] == cmds;
  }

  lemma {:induction false} RunStart(release: bool)
    ensures RunShape(release, []) == map[[] := NEW]
  {}

  method Perform(t: Trie, c: Call)
    requires t.Valid() && InRange(c)
    modifies t`nodes, t`graph, t.nodes.Values
    ensures t.Valid() && t.Shape() == Step(t.releaseMemory, old(t.Shape()), ToCommand(c))
    ensures fresh(t.nodes.Values - old(t.nodes.Values))
  {
    hide LinkedGraph, Sound, InsertShape, DeleteStep, BitsOf;
    if c.InsertCall? {
      t.Insert(c.prefix, c.length, c.value);
    } else {
      var _ := t.Delete(c.prefix, c.length);
    }
  }
}
