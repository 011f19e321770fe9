/** mfg_event_converter.py, phase_uniquizer: re-keying the phases' dictionaries in place. */
module PhaseUniquizer {
  import opened Names
  import opened UniqueNames

  // ---------------------------------------------------------------- re-keying one dictionary

  /** Takes an entry out and puts it in again under another key. */
  function MoveKey<V>(d: map<string, V>, old_: string, new_: string): map<string, V> {
    if old_ in d then (d - {old_})[new_ := d[old_]] else d
  }

  /** The dictionary after the first i of the moves from[j] -> to[j]. */
  function Moved<V>(d: map<string, V>, from: seq<string>, to: seq<string>, i: nat): map<string, V>
    requires i <= |from| == |to|
  {
    if i == 0 then d else MoveKey(Moved(d, from, to, i - 1), from[i - 1], to[i - 1])
  }

  /** No KeyError: a key is still there when its turn comes. */
  lemma {:induction false} UnmovedKeyStays<V>(d: map<string, V>, from: seq<string>, to: seq<string>, i: nat, k: nat)
    requires i <= k < |from| == |to| && Distinct(from) && from[k] in d
    ensures from[k] in Moved(d, from, to, i)
    decreases i
  {
    if i > 0 {
      UnmovedKeyStays(d, from, to, i - 1, k);
    }
  }

  /** The list names every key of the dictionary once. */
  ghost predicate ListsKeys<V>(from: seq<string>, d: map<string, V>) {
    && Distinct(from)
    && (forall j :: 0 <= j < |from| ==> from[j] in d)
    && (forall x <- d :: exists j :: 0 <= j < |from| && from[j] == x)
  }

  /** The keys after i moves: the new names of the moved keys, the old names of the others. */
  ghost predicate IsKey(from: seq<string>, to: seq<string>, i: nat, x: string)
    requires i <= |from| == |to|
  {
    (exists j :: i <= j < |from| && from[j] == x) || (exists j :: 0 <= j < i && to[j] == x)
  }

  /** r is d with the keys from[0], ..., from[i-1] renamed, all at once. */
  ghost predicate IsRenaming<V>(d: map<string, V>, from: seq<string>, to: seq<string>, i: nat, r: map<string, V>)
    requires i <= |from| == |to| && forall j :: 0 <= j < |from| ==> from[j] in d
  {
    && (forall j :: 0 <= j < i ==> to[j] in r && r[to[j]] == d[from[j]])
    && (forall j :: i <= j < |from| ==> from[j] in r && r[from[j]] == d[from[j]])
    && (forall x <- r :: IsKey(from, to, i, x))
    && |r| == |d|
  }

  /** The moves only ever go up, apart from keys that keep their name. */
  ghost predicate MovesUp(from: seq<string>, to: seq<string>) {
    |from| == |to| && forall j :: 0 <= j < |from| ==> to[j] == from[j] || Less(from[j], to[j])
  }

  /** No moved key lands on a key of the same dictionary. */
  ghost predicate LandsFree(from: seq<string>, to: seq<string>)
    requires |from| == |to|
  {
    forall j, k :: 0 <= j < |from| && 0 <= k < |from| && to[j] != from[j] ==> to[j] != from[k]
  }

  lemma MoveKeySize<V>(d: map<string, V>, old_: string, new_: string)
    ensures |MoveKey(d, old_, new_)| == if old_ in d && new_ in d && new_ != old_ then |d| - 1 else |d|
  {
    if old_ in d {
      MoveKeySizePresent(d, old_, new_);
    }
  }

  lemma MoveKeySizePresent<V>(d: map<string, V>, old_: string, new_: string)
    requires old_ in d
    ensures |MoveKey(d, old_, new_)| == if new_ in d && new_ != old_ then |d| - 1 else |d|
  {
    var rest := d - {old_};
    assert d.Keys == rest.Keys + {old_};
    var r := MoveKey(d, old_, new_);
    assert r.Keys == rest.Keys + {new_};
    assert |d.Keys| == |rest.Keys| + 1;
    if new_ in d && new_ != old_ {
      assert r.Keys == rest.Keys;
    } else {
      assert |r.Keys| == |rest.Keys| + 1;
    }
    assert |r.Keys| == |r| && |d.Keys| == |d|;
  }

  /** The renamed keys are pairwise different. */
  ghost predicate RenamedDiffer(from: seq<string>, to: seq<string>) {
    |from| == |to| &&
    forall j, k :: 0 <= j < k < |from| && to[j] != from[j] && to[k] != from[k] ==> to[j] != to[k]
  }

  ghost predicate Movable<V>(d: map<string, V>, from: seq<string>, to: seq<string>) {
    |from| == |to| && ListsKeys(from, d) && LandsFree(from, to) && RenamedDiffer(from, to)
  }

  lemma LandingIsFree<V>(d: map<string, V>, from: seq<string>, to: seq<string>, i: nat)
    requires Movable(d, from, to) && i < |from|
    ensures to[i] != from[i] ==> !IsKey(from, to, i, to[i])
    ensures forall j :: 0 <= j < i ==> to[j] != from[i]
    ensures forall j :: i < j < |from| ==> from[j] != from[i]
  {
    forall j | 0 <= j < i ensures to[j] != from[i] {
      if to[j] != from[j] { assert to[j] != from[i]; }
    }
    if to[i] != from[i] {
      forall j | 0 <= j < i ensures to[j] != to[i] {
        if to[j] == from[j] { assert to[i] != from[j]; }
      }
    }
  }

  lemma OneMoveRenames<V>(d: map<string, V>, from: seq<string>, to: seq<string>, i: nat, m: map<string, V>)
    requires i < |from| == |to| && forall j :: 0 <= j < |from| ==> from[j] in d
    requires IsRenaming(d, from, to, i, m)
    requires to[i] == from[i] || to[i] !in m
    requires forall j :: 0 <= j < i ==> to[j] != from[i]
    requires forall j :: i < j < |from| ==> from[j] != from[i]
    ensures IsRenaming(d, from, to, i + 1, MoveKey(m, from[i], to[i]))
  {
    var r := MoveKey(m, from[i], to[i]);
    MoveKeySize(m, from[i], to[i]);
    forall x <- r ensures IsKey(from, to, i + 1, x) {
      if x != to[i] {
        assert IsKey(from, to, i, x);
      }
    }
  }

  lemma {:induction false} MovedIsRenaming<V>(d: map<string, V>, from: seq<string>, to: seq<string>, i: nat)
    requires Movable(d, from, to) && i <= |from|
    ensures IsRenaming(d, from, to, i, Moved(d, from, to, i))
  {
    if i > 0 {
      var k := i - 1;
      var m := Moved(d, from, to, k);
      MovedIsRenaming(d, from, to, k);
      LandingIsFree(d, from, to, k);
      OneMoveRenames(d, from, to, k, m);
    }
  }

  lemma {:induction false} MovedNeverGrows<V>(d: map<string, V>, from: seq<string>, to: seq<string>, i: nat, n: nat)
    requires i <= n <= |from| == |to|
    ensures |Moved(d, from, to, n)| <= |Moved(d, from, to, i)|
    decreases n - i
  {
    if i < n {
      MoveKeySize(Moved(d, from, to, i), from[i], to[i]);
      MovedNeverGrows(d, from, to, i + 1, n);
    }
  }

  /** Moves go up, so a key that is hit has not been moved out of the way yet. */
  lemma HitKeyIsLater(from: seq<string>, to: seq<string>, j: nat, k: nat)
    requires Sorted(from) && MovesUp(from, to) && Distinct(from)
    requires j < |from| && k < |from| && to[j] != from[j] && from[k] == to[j]
    ensures j < k
  {
    assert Less(from[j], from[k]);
    LessTrichotomy(from[j], from[k]);
  }

  lemma HitKeyIsLost<V>(d: map<string, V>, from: seq<string>, to: seq<string>, j: nat, k: nat)
    requires ListsKeys(from, d) && |from| == |to|
    requires j < k < |from| && to[j] != from[j] && from[k] == to[j]
    ensures |Moved(d, from, to, |from|)| < |d|
  {
    UnmovedKeyStays(d, from, to, j, j);
    UnmovedKeyStays(d, from, to, j, k);
    MoveKeySize(Moved(d, from, to, j), from[j], to[j]);
    MovedNeverGrows(d, from, to, 0, j);
    MovedNeverGrows(d, from, to, j + 1, |from|);
  }

  /**
    Re-keying a dictionary in sorted order loses nothing if and only if no moved key lands on
    another key of the dictionary; and then it is the simultaneous renaming of all keys.
   */
  lemma RekeyLosesNothingIff<V>(d: map<string, V>, from: seq<string>, to: seq<string>)
    requires Sorted(from) && ListsKeys(from, d) && MovesUp(from, to) && RenamedDiffer(from, to)
    ensures |Moved(d, from, to, |from|)| == |d| <==> LandsFree(from, to)
    ensures LandsFree(from, to) ==> IsRenaming(d, from, to, |from|, Moved(d, from, to, |from|))
  {
    if LandsFree(from, to) {
      MovedIsRenaming(d, from, to, |from|);
    } else {
      var j, k :| 0 <= j < |from| && 0 <= k < |from| && to[j] != from[j] && to[j] == from[k];
      HitKeyIsLater(from, to, j, k);
      HitKeyIsLost(d, from, to, j, k);
    }
  }

  // ---------------------------------------------------------------- names over all phases

  /** How many of the key sets hold the name. */
  function Holding(keys: seq<set<string>>, n: string): nat {
    if keys == [] then 0
    else Holding(keys[..|keys| - 1], n) + (if n in keys[|keys| - 1] then 1 else 0)
  }

  /** The new name of key n of phase p: numbered by the earlier phases with the same key. */
  function NewName(counts: multiset<string>, keys: seq<set<string>>, p: nat, n: string): string
    requires p < |keys|
  {
    UniqueName(counts, n, Holding(keys[..p], n))
  }

  ghost function NewNames(counts: multiset<string>, keys: seq<set<string>>, p: nat): (to: seq<string>)
    requires p < |keys|
    ensures |to| == |SortedKeys(keys[p])|
  {
    var from := SortedKeys(keys[p]);
    seq(|from|, i requires 0 <= i < |from| => NewName(counts, keys, p, from[i]))
  }

  function KeySets<V>(ds: seq<map<string, V>>): seq<set<string>> {
    seq(|ds|, i requires 0 <= i < |ds| => ds[i].Keys)
  }

  /** Phase p's dictionary after phase_uniquizer. */
  ghost function Rekeyed<V>(counts: multiset<string>, ds: seq<map<string, V>>, p: nat): map<string, V>
    requires p < |ds|
  {
    var from, to := SortedKeys(ds[p].Keys), NewNames(counts, KeySets(ds), p);
    Moved(ds[p], from, to, |from|)
  }

  ghost predicate PhaseLandsFree<V>(counts: multiset<string>, ds: seq<map<string, V>>, p: nat)
    requires p < |ds|
  {
    LandsFree(SortedKeys(ds[p].Keys), NewNames(counts, KeySets(ds), p))
  }

  lemma NewNamesShape(counts: multiset<string>, keys: seq<set<string>>, p: nat)
    requires p < |keys|
    ensures MovesUp(SortedKeys(keys[p]), NewNames(counts, keys, p))
    ensures RenamedDiffer(SortedKeys(keys[p]), NewNames(counts, keys, p))
  {
    var from, to := SortedKeys(keys[p]), NewNames(counts, keys, p);
    SortedKeysSorts(keys[p]);
    SortedIsDistinct(from);
    forall j | 0 <= j < |from| ensures to[j] == from[j] || Less(from[j], to[j]) {
      NumberedIsGreater(from[j], Holding(keys[..p], from[j]));
    }
    forall j, k | 0 <= j < k < |from| && to[j] != from[j] && to[k] != from[k] ensures to[j] != to[k] {
      if to[j] == to[k] {
        NumberedInjective(from[j], Holding(keys[..p], from[j]), from[k], Holding(keys[..p], from[k]));
      }
    }
  }

  lemma SortedKeysListKeys<V>(d: map<string, V>)
    ensures ListsKeys(SortedKeys(d.Keys), d)
  {
    var from := SortedKeys(d.Keys);
    SortedKeysSorts(d.Keys);
    SortedIsDistinct(from);
    forall x <- d ensures exists j :: 0 <= j < |from| && from[j] == x {
      assert x in from;
    }
    forall j | 0 <= j < |from| ensures from[j] in d {
      assert from[j] in from;
    }
  }

  ghost predicate IsNewName(counts: multiset<string>, keys: seq<set<string>>, p: nat, x: string)
    requires p < |keys|
  {
    exists n <- keys[p] :: NewName(counts, keys, p, n) == x
  }

  /** r holds the entries of d, each under the new name of its key, and nothing else. */
  ghost predicate RenamesAll<V>(
      counts: multiset<string>, keys: seq<set<string>>, p: nat, d: map<string, V>, r: map<string, V>)
    requires p < |keys| && keys[p] == d.Keys
  {
    && |r| == |d|
    && (forall n <- d :: NewName(counts, keys, p, n) in r && r[NewName(counts, keys, p, n)] == d[n])
    && (forall x <- r :: IsNewName(counts, keys, p, x))
  }

  lemma RenamingRenamesAll<V>(
      counts: multiset<string>, keys: seq<set<string>>, p: nat, d: map<string, V>, from: seq<string>, to: seq<string>,
      r: map<string, V>)
    requires p < |keys| && keys[p] == d.Keys && ListsKeys(from, d) && |from| == |to|
    requires forall j :: 0 <= j < |from| ==> to[j] == NewName(counts, keys, p, from[j])
    requires IsRenaming(d, from, to, |from|, r)
    ensures RenamesAll(counts, keys, p, d, r)
  {
    forall n <- d ensures NewName(counts, keys, p, n) in r && r[NewName(counts, keys, p, n)] == d[n] {
      var j :| 0 <= j < |from| && from[j] == n;
      assert to[j] in r && r[to[j]] == d[from[j]];
    }
    forall x <- r ensures IsNewName(counts, keys, p, x) {
      assert IsKey(from, to, |from|, x);
      var j :| 0 <= j < |from| && to[j] == x;
      assert from[j] in keys[p] && NewName(counts, keys, p, from[j]) == x;
    }
  }

  /**
    phase_uniquizer keeps every entry of a phase's dictionary if and only if no repeated key's new
    name is another key of that dictionary; otherwise the entry that is hit is lost.
   */
  lemma PhaseKeepsEntriesIff<V>(counts: multiset<string>, ds: seq<map<string, V>>, p: nat)
    requires p < |ds|
    ensures |Rekeyed(counts, ds, p)| == |ds[p]| <==> PhaseLandsFree(counts, ds, p)
    ensures PhaseLandsFree(counts, ds, p) ==> RenamesAll(counts, KeySets(ds), p, ds[p], Rekeyed(counts, ds, p))
  {
    var keys := KeySets(ds);
    var from, to := SortedKeys(ds[p].Keys), NewNames(counts, keys, p);
    NewNamesShape(counts, keys, p);
    SortedKeysListKeys(ds[p]);
    SortedKeysSorts(ds[p].Keys);
    RekeyLosesNothingIff(ds[p], from, to);
    if PhaseLandsFree(counts, ds, p) {
      RenamingRenamesAll(counts, keys, p, ds[p], from, to, Rekeyed(counts, ds, p));
    }
  }

  lemma {:induction false} HoldingGrows(keys: seq<set<string>>, p: nat, q: nat, n: string)
    requires p < q <= |keys| && n in keys[p]
    ensures Holding(keys[..p], n) < Holding(keys[..q], n)
    decreases q
  {
    assert keys[..q][..q - 1] == keys[..q - 1];
    if p < q - 1 {
      HoldingGrows(keys, p, q - 1, n);
    }
  }

  /** A key given once, in one phase, is the new name of a repeated key of another phase. */
  ghost predicate PhaseClash(counts: multiset<string>, keys: seq<set<string>>, p: nat, u: string, q: nat, n: string) {
    && p < |keys| && q < |keys| && p != q && u in keys[p] && n in keys[q]
    && counts[u] == 1 && counts[n] != 1
    && NewName(counts, keys, q, n) == u
  }

  lemma EqualNewNamesClash(counts: multiset<string>, keys: seq<set<string>>, p: nat, m: string, q: nat, n: string)
    requires p < |keys| && q < |keys| && p != q && m in keys[p] && n in keys[q]
    requires forall x :: Holding(keys, x) <= counts[x]
    requires NewName(counts, keys, p, m) == NewName(counts, keys, q, n)
    ensures PhaseClash(counts, keys, p, m, q, n) || PhaseClash(counts, keys, q, n, p, m)
  {
    var j, k := Holding(keys[..p], m), Holding(keys[..q], n);
    if m == n {
      var lo, hi := if p < q then p else q, if p < q then q else p;
      HoldingGrows(keys, lo, hi, n);
      HoldingGrows(keys, hi, |keys|, n);
      assert keys[..|keys|] == keys;
      NumberedInjective(m, j, n, k);
    } else if counts[m] != 1 && counts[n] != 1 {
      NumberedInjective(m, j, n, k);
    }
  }

  /** Only old and new keys occur after the first i moves. */
  lemma {:induction false} MovedKeys<V>(d: map<string, V>, from: seq<string>, to: seq<string>, i: nat, x: string)
    requires ListsKeys(from, d) && i <= |from| == |to| && x in Moved(d, from, to, i)
    ensures IsKey(from, to, i, x)
    decreases i
  {
    if i > 0 && x != to[i - 1] {
      MovedKeys(d, from, to, i - 1, x);
    }
  }

  /** A new key that no later move takes away is there in the end. */
  lemma {:induction false} WrittenKeyStays<V>(
      d: map<string, V>, from: seq<string>, to: seq<string>, i: nat, k: nat)
    requires ListsKeys(from, d) && k < i <= |from| == |to|
    requires forall l :: k < l < |from| ==> from[l] != to[k]
    ensures to[k] in Moved(d, from, to, i)
    decreases i
  {
    if k == i - 1 {
      UnmovedKeyStays(d, from, to, k, k);
    } else {
      WrittenKeyStays(d, from, to, i - 1, k);
    }
  }

  /** Whatever was lost, each key that is left in a phase is the new name of one of its keys. */
  lemma RekeyedKeys<V>(counts: multiset<string>, ds: seq<map<string, V>>, p: nat, x: string)
    requires p < |ds| && x in Rekeyed(counts, ds, p)
    ensures IsNewName(counts, KeySets(ds), p, x)
  {
    var from, to := SortedKeys(ds[p].Keys), NewNames(counts, KeySets(ds), p);
    SortedKeysListKeys(ds[p]);
    MovedKeys(ds[p], from, to, |from|, x);
    var j :| 0 <= j < |from| && to[j] == x;
    assert from[j] in KeySets(ds)[p] && NewName(counts, KeySets(ds), p, from[j]) == x;
  }

  /** A new name that is no other key of the phase is always left in it. */
  lemma NewNameIsLeft<V>(counts: multiset<string>, ds: seq<map<string, V>>, p: nat, n: string)
    requires p < |ds| && n in ds[p]
    requires NewName(counts, KeySets(ds), p, n) == n || NewName(counts, KeySets(ds), p, n) !in ds[p]
    ensures NewName(counts, KeySets(ds), p, n) in Rekeyed(counts, ds, p)
  {
    var from, to := SortedKeys(ds[p].Keys), NewNames(counts, KeySets(ds), p);
    SortedKeysListKeys(ds[p]);
    var k :| 0 <= k < |from| && from[k] == n;
    assert to[k] == NewName(counts, KeySets(ds), p, n);
    WrittenKeyStays(ds[p], from, to, |from|, k);
  }

  lemma OnlyPhaseHolds(keys: seq<set<string>>, p: nat, q: nat, u: string)
    requires p < |keys| && q < |keys| && p != q && u in keys[p] && Holding(keys, u) <= 1
    ensures u !in keys[q]
  {
    assert keys[..|keys|] == keys;
    if u in keys[q] {
      var lo, hi := if p < q then p else q, if p < q then q else p;
      HoldingGrows(keys, lo, hi, u);
      HoldingGrows(keys, hi, |keys|, u);
    }
  }

  /**
    The keys are unique across phases if and only if no key that was given once is the new name of
    a repeated key of another phase, whether or not phases lose entries.
   */
  lemma KeysUniqueAcrossPhasesIff<V>(counts: multiset<string>, ds: seq<map<string, V>>)
    requires forall x :: Holding(KeySets(ds), x) <= counts[x]
    ensures (forall p, q :: 0 <= p < |ds| && 0 <= q < |ds| && p != q ==>
               Rekeyed(counts, ds, p).Keys !! Rekeyed(counts, ds, q).Keys)
            <==> (forall p, u, q, n :: !PhaseClash(counts, KeySets(ds), p, u, q, n))
  {
    var keys := KeySets(ds);
    if p, u, q, n :| PhaseClash(counts, keys, p, u, q, n) {
      assert NewName(counts, keys, p, u) == u;
      OnlyPhaseHolds(keys, p, q, u);
      NewNameIsLeft(counts, ds, p, u);
      NewNameIsLeft(counts, ds, q, n);
      assert !(Rekeyed(counts, ds, p).Keys !! Rekeyed(counts, ds, q).Keys);
    }
    if !forall p, q :: 0 <= p < |ds| && 0 <= q < |ds| && p != q ==>
                         Rekeyed(counts, ds, p).Keys !! Rekeyed(counts, ds, q).Keys {
      var p, q :| && 0 <= p < |ds| && 0 <= q < |ds| && p != q
                  && !(Rekeyed(counts, ds, p).Keys !! Rekeyed(counts, ds, q).Keys);
      var x :| x in Rekeyed(counts, ds, p) && x in Rekeyed(counts, ds, q);
      RekeyedKeys(counts, ds, p, x);
      RekeyedKeys(counts, ds, q, x);
      var m :| m in keys[p] && NewName(counts, keys, p, m) == x;
      var n :| n in keys[q] && NewName(counts, keys, q, n) == x;
      EqualNewNamesClash(counts, keys, p, m, q, n);
    }
  }

  /** No key of any phase is a numbered form of a repeated key. */
  ghost predicate NoKeyIsNumbered(counts: multiset<string>, keys: seq<set<string>>) {
    forall p, q, u, n, k: nat ::
      0 <= p < |keys| && 0 <= q < |keys| && u in keys[p] && n in keys[q] && counts[n] != 1 ==> Numbered(n, k) != u
  }

  /** A condition on the given keys alone, under which nothing is lost and all keys become unique. */
  lemma NothingLostWithoutNumberedKeys<V>(counts: multiset<string>, ds: seq<map<string, V>>)
    requires NoKeyIsNumbered(counts, KeySets(ds)) && forall x :: Holding(KeySets(ds), x) <= counts[x]
    ensures forall p :: 0 <= p < |ds| ==>
              PhaseLandsFree(counts, ds, p) && RenamesAll(counts, KeySets(ds), p, ds[p], Rekeyed(counts, ds, p))
    ensures forall p, q :: 0 <= p < |ds| && 0 <= q < |ds| && p != q ==>
              Rekeyed(counts, ds, p).Keys !! Rekeyed(counts, ds, q).Keys
  {
    var keys := KeySets(ds);
    forall p | 0 <= p < |ds|
      ensures PhaseLandsFree(counts, ds, p) && RenamesAll(counts, keys, p, ds[p], Rekeyed(counts, ds, p))
    {
      var from, to := SortedKeys(ds[p].Keys), NewNames(counts, keys, p);
      SortedKeysListKeys(ds[p]);
      forall j, k | 0 <= j < |from| && 0 <= k < |from| && to[j] != from[j] ensures to[j] != from[k] {
        assert from[j] in keys[p] && from[k] in keys[p];
      }
      PhaseKeepsEntriesIff(counts, ds, p);
    }
    KeysUniqueAcrossPhasesIff(counts, ds);
  }

  /**
    That the unique names are pairwise distinct is not enough: two phases that both have the keys
    a and a_0 get four different names, and yet each loses its entry a_0, which a is moved onto.
   */
  lemma DistinctNamesCanLose<V>(d: map<string, V>)
    requires d.Keys == {"a", "a_0"}
    ensures var counts, calls := multiset{"a", "a", "a_0", "a_0"}, ["a", "a_0", "a", "a_0"];
            Distinct(UniqueNamesOf(counts, calls)) && |Rekeyed(counts, [d, d], 0)| < |d|
  {
    var counts, calls := multiset{"a", "a", "a_0", "a_0"}, ["a", "a_0", "a", "a_0"];
    assert multiset(calls) == counts;
    UniqueNamesDistinctIff(counts, calls);
    ClashExample();
    MovedOntoKeyIsLost(counts, d, "a", "a_0");
  }

  /** Of two equal dictionaries with both keys, the first loses an entry if one key's new name is the other key. */
  lemma MovedOntoKeyIsLost<V>(counts: multiset<string>, d: map<string, V>, m: string, n: string)
    requires m in d && n in d && m != n && counts[m] > 1 && Numbered(m, 0) == n
    ensures |Rekeyed(counts, [d, d], 0)| < |d|
  {
    var ds := [d, d];
    var keys := KeySets(ds);
    var from, to := SortedKeys(d.Keys), NewNames(counts, keys, 0);
    SortedKeysListKeys(d);
    var j :| 0 <= j < |from| && from[j] == m;
    var k :| 0 <= k < |from| && from[k] == n;
    assert keys[..0] == [] && Holding(keys[..0], m) == 0;
    assert to[j] == n;
    assert !PhaseLandsFree(counts, ds, 0);
    PhaseKeepsEntriesIff(counts, ds, 0);
    RekeyedNeverGrows(counts, ds, 0);
  }

  lemma RekeyedNeverGrows<V>(counts: multiset<string>, ds: seq<map<string, V>>, p: nat)
    requires p < |ds|
    ensures |Rekeyed(counts, ds, p)| <= |ds[p]|
  {
    MovedNeverGrows(ds[p], SortedKeys(ds[p].Keys), NewNames(counts, KeySets(ds), p), 0, |SortedKeys(ds[p].Keys)|);
  }

  // ---------------------------------------------------------------- the method

  class Measurement {
    var name: string
    /** It was declared with dimensions. */
    const dimensioned: bool

    constructor (name: string, dimensioned: bool)
      ensures this.name == name && this.dimensioned == dimensioned
    {
      this.name := name;
      this.dimensioned := dimensioned;
    }
  }

  datatype Attachment = Attachment(data: string)

  class PhaseRecord {
    var measurements: map<string, Measurement>
    var attachments: map<string, Attachment>

    constructor (measurements: map<string, Measurement>, attachments: map<string, Attachment>)
      ensures this.measurements == measurements && this.attachments == attachments
    {
      this.measurements := measurements;
      this.attachments := attachments;
    }
  }

  ghost function MeasurementDicts(phases: seq<PhaseRecord>): (ds: seq<map<string, Measurement>>)
    reads phases
  {
    seq(|phases|, i requires 0 <= i < |phases| reads phases => phases[i].measurements)
  }

  ghost function AttachmentDicts(phases: seq<PhaseRecord>): (ds: seq<map<string, Attachment>>)
    reads phases
  {
    seq(|phases|, i requires 0 <= i < |phases| reads phases => phases[i].attachments)
  }

  /** No measurement object of phase p sits under another key, or in another phase. */
  ghost predicate OwnMeasurements(ds: seq<map<string, Measurement>>, p: nat)
    requires p < |ds|
  {
    OneKeyEach(ds[p]) && forall q :: 0 <= q < |ds| && q != p ==> ds[q].Values !! ds[p].Values
  }

  /** There are as many measurement objects as keys. */
  ghost predicate OneKeyEach(d: map<string, Measurement>) {
    |d.Values| == |d|
  }

  lemma {:induction false} ValuesAreFew(d: map<string, Measurement>)
    ensures |d.Values| <= |d|
    decreases |d|
  {
    if d != map[] {
      var k :| k in d;
      var rest := d - {k};
      ValuesAreFew(rest);
      forall v <- d.Values ensures v in rest.Values + {d[k]} {
        var j :| j in d && d[j] == v;
        assert j != k ==> j in rest;
      }
      SubsetSize(d.Values, rest.Values + {d[k]});
      assert d.Keys == rest.Keys + {k} && |d.Keys| == |d| && |rest.Keys| == |rest|;
    }
  }

  lemma {:induction false} SubsetSize<T>(a: set<T>, b: set<T>)
    requires a <= b
    ensures |a| <= |b|
  {
    assert b == a + (b - a);
  }

  lemma DifferentObjects(d: map<string, Measurement>, m: string, n: string)
    requires OneKeyEach(d) && m in d && n in d && m != n
    ensures d[m] != d[n]
  {
    if d[m] == d[n] {
      var rest := d - {m};
      ValuesAreFew(rest);
      assert d.Keys == rest.Keys + {m} && |d.Keys| == |d| && |rest.Keys| == |rest|;
      assert d.Values <= rest.Values by {
        forall v <- d.Values ensures v in rest.Values {
          var k :| k in d && d[k] == v;
          assert (if k == m then n else k) in rest;
        }
      }
      SubsetSize(d.Values, rest.Values);
      assert false;
    }
  }

  /** The names of the phases' keys, each as often as phases hold it. */
  function KeyCounts(keys: seq<set<string>>): multiset<string> {
    if keys == [] then multiset{} else KeyCounts(keys[..|keys| - 1]) + multiset(keys[|keys| - 1])
  }

  lemma {:induction false} KeyCountsIsHolding(keys: seq<set<string>>, n: string)
    ensures KeyCounts(keys)[n] == Holding(keys, n)
    decreases |keys|
  {
    if keys != [] {
      KeyCountsIsHolding(keys[..|keys| - 1], n);
    }
  }

  function MultidimNames(d: map<string, Measurement>): set<string> {
    set n | n in d && d[n].dimensioned :: "multidim_" + n
  }

  /** The names reserved for measurements that are, or were, turned into attachments. */
  function MultidimCounts(ds: seq<map<string, Measurement>>): multiset<string> {
    if ds == [] then multiset{} else MultidimCounts(ds[..|ds| - 1]) + multiset(MultidimNames(ds[|ds| - 1]))
  }

  /** How many phases have a dimensioned measurement of this name. */
  function HoldingDimensioned(ds: seq<map<string, Measurement>>, n: string): nat {
    if ds == [] then 0
    else
      var d := ds[|ds| - 1];
      HoldingDimensioned(ds[..|ds| - 1], n) + (if n in d && d[n].dimensioned then 1 else 0)
  }

  lemma MultidimNamesIff(d: map<string, Measurement>, n: string)
    ensures n in MultidimNames(d) <==>
            |n| >= 9 && n[..9] == "multidim_" && n[9..] in d && d[n[9..]].dimensioned
  {
    if |n| >= 9 && n[..9] == "multidim_" {
      assert n == "multidim_" + n[9..];
    }
    if x :| x in d && d[x].dimensioned && n == "multidim_" + x {
      assert n[9..] == x;
    }
  }

  lemma {:induction false} MultidimCountsIff(ds: seq<map<string, Measurement>>, n: string)
    ensures MultidimCounts(ds)[n] == if |n| >= 9 && n[..9] == "multidim_" then HoldingDimensioned(ds, n[9..]) else 0
    decreases |ds|
  {
    if ds != [] {
      MultidimCountsIff(ds[..|ds| - 1], n);
      MultidimNamesIff(ds[|ds| - 1], n);
    }
  }

  /**
    How often each name is given: a measurement's once for each phase that has it, an attachment's
    likewise, and once more for each phase with a dimensioned measurement that becomes, or became,
    an attachment of that name.
   */
  lemma CountsIff(ms: seq<map<string, Measurement>>, ats: seq<map<string, Attachment>>, n: string)
    ensures MeasurementCounts(ms)[n] == Holding(KeySets(ms), n)
    ensures AttachmentCounts(ms, ats)[n] ==
            Holding(KeySets(ats), n)
            + if |n| >= 9 && n[..9] == "multidim_" then HoldingDimensioned(ms, n[9..]) else 0
  {
    KeyCountsIsHolding(KeySets(ms), n);
    KeyCountsIsHolding(KeySets(ats), n);
    MultidimCountsIff(ms, n);
  }

  function MeasurementCounts(ms: seq<map<string, Measurement>>): multiset<string> {
    KeyCounts(KeySets(ms))
  }

  function AttachmentCounts(ms: seq<map<string, Measurement>>, ats: seq<map<string, Attachment>>): multiset<string> {
    KeyCounts(KeySets(ats)) + MultidimCounts(ms)
  }

  /** What the given calls before made of the keys of one dictionary. */
  ghost function NamesFrom(counts: multiset<string>, calls: seq<string>, from: seq<string>): (to: seq<string>)
    ensures |to| == |from|
  {
    seq(|from|, i requires 0 <= i < |from| => UniqueName(counts, from[i], multiset(calls)[from[i]]))
  }

  lemma CallsWithin(calls: seq<string>, from: seq<string>, i: nat)
    requires i < |from| && Distinct(from)
    ensures multiset(calls + from[..i])[from[i]] == multiset(calls)[from[i]]
  {
    assert from[i] !in from[..i];
  }

  lemma {:induction false} MovedValues<V>(d: map<string, V>, from: seq<string>, to: seq<string>, i: nat)
    requires i <= |from| == |to|
    ensures Moved(d, from, to, i).Values <= d.Values
  {
    if i > 0 {
      MovedValues(d, from, to, i - 1);
    }
  }

  /** One turn of the attachment loop. */
  method RekeyAttachment(phase: PhaseRecord, maker: UniqueNameMaker, oldName: string)
    requires maker.Valid() && oldName in maker.counts && oldName in phase.attachments
    modifies phase`attachments, maker
    ensures maker.Valid() && maker.counts == old(maker.counts) && maker.calls == old(maker.calls) + [oldName]
    ensures phase.attachments == MoveKey(old(phase.attachments), oldName,
                                         UniqueName(maker.counts, oldName, multiset(old(maker.calls))[oldName]))
  {
    var unique := maker.MakeUnique(oldName);
    phase.attachments := MoveKey(phase.attachments, oldName, unique.value);
  }

  /** Turn i uses the i-th of the new names. */
  lemma TurnName(from: seq<string>, counts: multiset<string>, calls: seq<string>, i: nat)
    requires i < |from| && Distinct(from)
    ensures NamesFrom(counts, calls, from)[i] == UniqueName(counts, from[i], multiset(calls + from[..i])[from[i]])
    ensures calls + from[..i] + [from[i]] == calls + from[..i + 1]
  {
    CallsWithin(calls, from, i);
    assert from[..i + 1] == from[..i] + [from[i]];
  }

  /** Turn i moves a key that is still there. */
  lemma TurnEntry<V>(d: map<string, V>, from: seq<string>, to: seq<string>, i: nat)
    requires i < |from| == |to| && ListsKeys(from, d)
    ensures from[i] in d && from[i] in Moved(d, from, to, i)
    ensures Moved(d, from, to, i)[from[i]] in d.Values
  {
    UnmovedKeyStays(d, from, to, i, i);
    MovedValues(d, from, to, i);
  }

  /** Moves put no object under two keys. */
  lemma {:induction false} MovedObjectsDiffer(
      d: map<string, Measurement>, from: seq<string>, to: seq<string>, i: nat, x: string, y: string)
    requires i <= |from| == |to| && OneKeyEach(d) && x != y
    requires x in Moved(d, from, to, i) && y in Moved(d, from, to, i)
    ensures Moved(d, from, to, i)[x] != Moved(d, from, to, i)[y]
    decreases i
  {
    if i == 0 {
      DifferentObjects(d, x, y);
    } else {
      var moves := from[i - 1] in Moved(d, from, to, i - 1);
      var x0 := if moves && x == to[i - 1] then from[i - 1] else x;
      var y0 := if moves && y == to[i - 1] then from[i - 1] else y;
      MovedObjectsDiffer(d, from, to, i - 1, x0, y0);
    }
  }

  /** Turn i names an object that is under no other key, unless one was under two from the start. */
  lemma TurnObject(d: map<string, Measurement>, from: seq<string>, to: seq<string>, i: nat)
    requires i < |from| == |to| && ListsKeys(from, d) && from[i] in Moved(d, from, to, i)
    ensures OneKeyEach(d) ==> OthersDiffer(Moved(d, from, to, i), from[i])
  {
    if OneKeyEach(d) {
      var r := Moved(d, from, to, i);
      forall x <- r | x != from[i] ensures r[x] != r[from[i]] {
        MovedObjectsDiffer(d, from, to, i, x, from[i]);
      }
    }
  }

  ghost predicate OthersDiffer(d: map<string, Measurement>, key: string)
    requires key in d
  {
    forall x <- d :: x != key ==> d[x] != d[key]
  }

  /** Each measurement of the dictionary has its key as name, unless that key's turn is still to come. */
  ghost predicate NamedOrWaiting(d: map<string, Measurement>, from: seq<string>, i: nat)
    reads d.Values`name
  {
    forall x <- d :: d[x].name == x || exists k :: i <= k < |from| && from[k] == x
  }

  /** What the measurement loop has done to phase and maker after i turns. */
  ghost predicate AfterTurns(
      phase: PhaseRecord, maker: UniqueNameMaker, d: map<string, Measurement>, from: seq<string>, to: seq<string>,
      calls: seq<string>, own: bool, i: nat)
    requires i <= |from| == |to| && ListsKeys(from, d)
    reads phase, maker, phase.measurements.Values`name
  {
    && maker.Valid() && maker.calls == calls + from[..i]
    && phase.measurements == Moved(d, from, to, i)
    && (own ==> NamedOrWaiting(phase.measurements, from, i))
  }

  /** One turn of that loop. */
  method RekeyMeasurement(
      phase: PhaseRecord, maker: UniqueNameMaker, oldName: string,
      ghost d: map<string, Measurement>, ghost from: seq<string>, ghost to: seq<string>,
      ghost calls: seq<string>, ghost own: bool, ghost i: nat)
    requires i < |from| == |to| && from[i] == oldName && oldName in maker.counts && oldName in phase.measurements
    requires ListsKeys(from, d) && AfterTurns(phase, maker, d, from, to, calls, own, i)
    requires to[i] == UniqueName(maker.counts, from[i], multiset(calls + from[..i])[from[i]])
    requires calls + from[..i] + [from[i]] == calls + from[..i + 1]
    requires own ==> OthersDiffer(phase.measurements, oldName)
    modifies phase`measurements, maker, {phase.measurements[oldName]}`name
    ensures AfterTurns(phase, maker, d, from, to, calls, own, i + 1) && maker.counts == old(maker.counts)
  {
    var unique := maker.MakeUnique(oldName);
    RenameEntry(phase, oldName, unique.value);
    if own {
      forall x <- phase.measurements
        ensures phase.measurements[x].name == x || exists k :: i + 1 <= k < |from| && from[k] == x
      {
        assert x != unique.value ==> KeepsName(old(phase.measurements), x, oldName);
      }
    }
  }

  /** The entry is another one than that of the old name. */
  ghost predicate KeepsName(d: map<string, Measurement>, x: string, oldName: string) {
    x in d && x != oldName
  }

  /** Names a measurement, and moves it to that key. */
  method RenameEntry(phase: PhaseRecord, oldName: string, name: string)
    requires oldName in phase.measurements
    modifies phase`measurements, {phase.measurements[oldName]}`name
    ensures phase.measurements == MoveKey(old(phase.measurements), oldName, name)
    ensures phase.measurements[name].name == name
    ensures old(OthersDiffer(phase.measurements, oldName)) ==>
              forall x <- phase.measurements :: x != name ==>
                KeepsName(old(phase.measurements), x, oldName) &&
                phase.measurements[x].name == old(phase.measurements[x].name)
  {
    ghost var before := phase.measurements;
    phase.measurements[oldName].name := name;
    phase.measurements := MoveKey(phase.measurements, oldName, name);
  }

  /** Each measurement of the dictionary has its key as name. */
  ghost predicate KeysAreNames(d: map<string, Measurement>)
    reads d.Values`name
  {
    forall x <- d :: d[x].name == x
  }

  /** The loop of phase_uniquizer over one phase's measurements. */
  method RekeyMeasurements(phase: PhaseRecord, maker: UniqueNameMaker)
    requires maker.Valid() && forall n <- phase.measurements :: n in maker.counts
    modifies phase`measurements, maker, phase.measurements.Values`name
    ensures maker.Valid() && maker.counts == old(maker.counts)
    ensures maker.calls == old(maker.calls) + SortedKeys(old(phase.measurements.Keys))
    ensures var d := old(phase.measurements);
            var from := SortedKeys(d.Keys);
            phase.measurements == Moved(d, from, NamesFrom(maker.counts, old(maker.calls), from), |from|)
    ensures OneKeyEach(old(phase.measurements)) ==> KeysAreNames(phase.measurements)
  {
    ghost var d, calls := phase.measurements, maker.calls;
    var from := SortKeys(phase.measurements.Keys);
    SortedKeysListKeys(d);
    ghost var to := NamesFrom(maker.counts, calls, from);
    ghost var own := OneKeyEach(d);
    assert from[..0] == [] && calls + [] == calls;
    for i := 0 to |from|
      invariant maker.counts == old(maker.counts) && AfterTurns(phase, maker, d, from, to, calls, own, i)
    {
      TurnName(from, maker.counts, calls, i);
      TurnEntry(d, from, to, i);
      TurnObject(d, from, to, i);
      RekeyMeasurement(phase, maker, from[i], d, from, to, calls, own, i);
    }
    assert from[..|from|] == from;
  }

  /** The loop of phase_uniquizer over one phase's attachments. */
  method RekeyAttachments(phase: PhaseRecord, maker: UniqueNameMaker)
    requires maker.Valid() && forall n <- phase.attachments :: n in maker.counts
    modifies phase`attachments, maker
    ensures maker.Valid() && maker.counts == old(maker.counts)
    ensures maker.calls == old(maker.calls) + SortedKeys(old(phase.attachments.Keys))
    ensures var d := old(phase.attachments);
            var from := SortedKeys(d.Keys);
            phase.attachments == Moved(d, from, NamesFrom(maker.counts, old(maker.calls), from), |from|)
  {
    ghost var d, calls, counts := phase.attachments, maker.calls, maker.counts;
    var from := SortKeys(phase.attachments.Keys);
    SortedKeysListKeys(d);
    ghost var to := NamesFrom(counts, calls, from);
    for i := 0 to |from|
      invariant maker.Valid() && maker.counts == counts
      invariant maker.calls == calls + from[..i]
      invariant phase.attachments == Moved(d, from, to, i)
    {
      TurnName(from, counts, calls, i);
      TurnEntry(d, from, to, i);
      RekeyAttachment(phase, maker, from[i]);
    }
    assert from[..|from|] == from;
  }

  // ---------------------------------------------------------------- all phases

  /** The calls of make_unique for the given phases' keys. */
  ghost function AllCalls(keys: seq<set<string>>): seq<string> {
    if keys == [] then [] else AllCalls(keys[..|keys| - 1]) + SortedKeys(keys[|keys| - 1])
  }

  lemma {:induction false} DistinctCount(xs: seq<string>, n: string)
    requires Distinct(xs)
    ensures multiset(xs)[n] == if n in xs then 1 else 0
    decreases |xs|
  {
    if xs != [] {
      var front, last := xs[..|xs| - 1], xs[|xs| - 1];
      assert xs == front + [last];
      DistinctCount(front, n);
      assert forall i :: 0 <= i < |front| ==> front[i] == xs[i] && front[i] != last;
    }
  }

  lemma SortedKeyCount(s: set<string>, n: string)
    ensures multiset(SortedKeys(s))[n] == if n in s then 1 else 0
  {
    SortedKeysSorts(s);
    SortedIsDistinct(SortedKeys(s));
    DistinctCount(SortedKeys(s), n);
  }

  lemma {:induction false} AllCallsIsHolding(keys: seq<set<string>>, n: string)
    ensures multiset(AllCalls(keys))[n] == Holding(keys, n)
    decreases |keys|
  {
    if keys != [] {
      AllCallsIsHolding(keys[..|keys| - 1], n);
      SortedKeyCount(keys[|keys| - 1], n);
    }
  }

  /** The names the maker hands out to phase p are those of NewNames. */
  lemma NamesFromIsNewNames(counts: multiset<string>, keys: seq<set<string>>, p: nat)
    requires p < |keys|
    ensures NamesFrom(counts, AllCalls(keys[..p]), SortedKeys(keys[p])) == NewNames(counts, keys, p)
    ensures AllCalls(keys[..p]) + SortedKeys(keys[p]) == AllCalls(keys[..p + 1])
  {
    var from := SortedKeys(keys[p]);
    forall i | 0 <= i < |from| ensures multiset(AllCalls(keys[..p]))[from[i]] == Holding(keys[..p], from[i]) {
      AllCallsIsHolding(keys[..p], from[i]);
    }
    assert keys[..p + 1][..p] == keys[..p];
  }

  ghost function MeasurementObjects(ms: seq<map<string, Measurement>>): set<Measurement> {
    set p, n | 0 <= p < |ms| && n in ms[p] :: ms[p][n]
  }

  ghost predicate MakerAt(maker: UniqueNameMaker, counts: multiset<string>, calls: seq<string>)
    reads maker
  {
    maker.Valid() && maker.counts == counts && maker.calls == calls
  }

  /** The measurements carry the names that are their goals. */
  ghost predicate CarryNames(objects: set<Measurement>, goals: map<Measurement, string>)
    reads objects`name
  {
    forall m <- objects :: m in goals && m.name == goals[m]
  }

  ghost predicate GoalsAre(goals: map<Measurement, string>, d: map<string, Measurement>) {
    forall x <- d :: d[x] in goals && goals[d[x]] == x
  }

  // ---------------------------------------------------------------- what each turn has to do

  /** What the loop over the phases makes of one kind of dictionaries, and the calls before each turn. */
  datatype Half<V> = Half(
    counts: multiset<string>, calls: seq<seq<string>>, before: seq<map<string, V>>, after: seq<map<string, V>>)

  /**
    Which phases share no measurement, the measurements each has before and after its turn, and the
    names of those that are left.
   */
  datatype Naming = Naming(
    own: seq<bool>, objects: seq<set<Measurement>>, left: seq<set<Measurement>>, goals: map<Measurement, string>)

  ghost predicate HalfIsReady<V>(h: Half<V>, n: nat, p: nat)
    requires p < n
  {
    && |h.calls| == n + 1 && |h.before| == |h.after| == n
    && h.calls[p] == AllCalls(KeySets(h.before)[..p]) && h.calls[p + 1] == AllCalls(KeySets(h.before)[..p + 1])
    && h.after[p] == Rekeyed(h.counts, h.before, p)
    && forall k <- h.before[p] :: k in h.counts
  }

  ghost predicate NamingIsReady(naming: Naming, h: Half<Measurement>, n: nat, p: nat)
    requires p < n == |h.before|
  {
    && |h.after| == |naming.own| == |naming.objects| == |naming.left| == n
    && naming.objects[p] == h.before[p].Values && naming.left[p] == h.after[p].Values <= naming.objects[p]
    && (naming.own[p] ==> OneKeyEach(h.before[p]) && GoalsAre(naming.goals, h.after[p]))
  }

  /** Phase p's turn touches no other phase, and no measurement that is to keep its name. */
  ghost predicate IsAlone(phases: seq<PhaseRecord>, naming: Naming, p: nat)
    requires p < |phases| == |naming.own| == |naming.objects| == |naming.left|
  {
    && (forall q :: 0 <= q < |phases| && q != p ==> phases[q] != phases[p])
    && forall q :: 0 <= q < |phases| && q != p && naming.own[q] ==> naming.left[q] !! naming.objects[p]
  }

  /** Always true. It marks the phase whose facts are needed, so that the others' are not looked into. */
  predicate At(p: nat) { true }

  ghost predicate HalvesAreReady(m: Half<Measurement>, naming: Naming, a: Half<Attachment>, n: nat) {
    && |m.calls| == |a.calls| == n + 1
    && |m.before| == |m.after| == |a.before| == |a.after| == n
    && |naming.own| == |naming.objects| == |naming.left| == n
    && forall p {:trigger At(p)} :: 0 <= p < n && At(p) ==>
         HalfIsReady(m, n, p) && NamingIsReady(naming, m, n, p) && HalfIsReady(a, n, p)
  }

  ghost predicate PhasesAreAlone(phases: seq<PhaseRecord>, naming: Naming) {
    && |naming.own| == |naming.objects| == |naming.left| == |phases|
    && forall p {:trigger At(p)} :: 0 <= p < |phases| && At(p) ==> IsAlone(phases, naming, p)
  }

  // ---------------------------------------------------------------- the loop over the phases

  /** The measurement half of one turn. */
  method MeasurementTurn(
      phase: PhaseRecord, maker: UniqueNameMaker, ghost h: Half<Measurement>, ghost naming: Naming,
      ghost n: nat, ghost p: nat, ghost mine: set<Measurement>)
    requires p < n && HalfIsReady(h, n, p) && NamingIsReady(naming, h, n, p) && mine == naming.objects[p]
    requires phase.measurements == h.before[p] && MakerAt(maker, h.counts, h.calls[p])
    modifies phase`measurements, maker, mine`name
    ensures phase.measurements == h.after[p] && MakerAt(maker, h.counts, h.calls[p + 1])
    ensures naming.own[p] ==> CarryNames(naming.left[p], naming.goals)
  {
    NamesFromIsNewNames(h.counts, KeySets(h.before), p);
    RekeyMeasurements(phase, maker);
  }

  /** The attachment half. */
  method AttachmentTurn(
      phase: PhaseRecord, maker: UniqueNameMaker, ghost h: Half<Attachment>, ghost n: nat, ghost p: nat)
    requires p < n && HalfIsReady(h, n, p)
    requires phase.attachments == h.before[p] && MakerAt(maker, h.counts, h.calls[p])
    modifies phase`attachments, maker
    ensures phase.attachments == h.after[p] && MakerAt(maker, h.counts, h.calls[p + 1])
  {
    NamesFromIsNewNames(h.counts, KeySets(h.before), p);
    RekeyAttachments(phase, maker);
  }

  /** One turn of the loop over the phases. */
  method UniquizePhase(
      phases: seq<PhaseRecord>, p: nat, measurementMaker: UniqueNameMaker, attachmentMaker: UniqueNameMaker,
      ghost m: Half<Measurement>, ghost naming: Naming, ghost a: Half<Attachment>, ghost mine: set<Measurement>)
    requires p < |phases| && HalvesAreReady(m, naming, a, |phases|) && mine == naming.objects[p]
    requires phases[p].measurements == m.before[p] && phases[p].attachments == a.before[p]
    requires MakerAt(measurementMaker, m.counts, m.calls[p]) && MakerAt(attachmentMaker, a.counts, a.calls[p])
    requires measurementMaker != attachmentMaker
    modifies phases[p], measurementMaker, attachmentMaker, mine`name
    ensures phases[p].measurements == m.after[p] && phases[p].attachments == a.after[p]
    ensures naming.own[p] ==> CarryNames(naming.left[p], naming.goals)
    ensures MakerAt(measurementMaker, m.counts, m.calls[p + 1]) && MakerAt(attachmentMaker, a.counts, a.calls[p + 1])
  {
    assert At(p);
    MeasurementTurn(phases[p], measurementMaker, m, naming, |phases|, p, mine);
    AttachmentTurn(phases[p], attachmentMaker, a, |phases|, p);
  }

  /** The measurements left in those of the first p phases that share none. */
  ghost function Kept(naming: Naming, p: nat): set<Measurement>
    requires p <= |naming.own| == |naming.left|
  {
    if p == 0 then {} else Kept(naming, p - 1) + (if naming.own[p - 1] then naming.left[p - 1] else {})
  }

  lemma {:induction false} KeptIsEarlier(naming: Naming, p: nat, q: nat)
    requires p <= q < |naming.own| == |naming.objects| == |naming.left|
    requires forall r :: 0 <= r < p && naming.own[r] ==> naming.left[r] !! naming.objects[q]
    ensures Kept(naming, p) !! naming.objects[q]
  {
    if p > 0 {
      KeptIsEarlier(naming, p - 1, q);
    }
  }

  /** Phase p's turn touches neither the other phases nor the measurements named before. */
  lemma PhaseIsOther(phases: seq<PhaseRecord>, naming: Naming, p: nat)
    requires PhasesAreAlone(phases, naming) && p < |phases|
    ensures forall q :: 0 <= q < |phases| && q != p ==> phases[q] != phases[p]
    ensures Kept(naming, p) !! naming.objects[p]
  {
    assert At(p);
    KeptIsEarlier(naming, p, p);
  }

  lemma {:induction false} KeptHolds(naming: Naming, p: nat, q: nat)
    requires q < p <= |naming.own| == |naming.left| && naming.own[q]
    ensures naming.left[q] <= Kept(naming, p)
  {
    if q < p - 1 {
      KeptHolds(naming, p - 1, q);
    }
  }

  /** The loop over the phases. */
  method UniquizeAll(
      phases: seq<PhaseRecord>, measurementMaker: UniqueNameMaker, attachmentMaker: UniqueNameMaker,
      ghost m: Half<Measurement>, ghost naming: Naming, ghost a: Half<Attachment>, ghost allObjects: set<Measurement>)
    requires HalvesAreReady(m, naming, a, |phases|) && PhasesAreAlone(phases, naming)
    requires measurementMaker != attachmentMaker
    requires forall q :: 0 <= q < |phases| ==> phases[q].measurements == m.before[q]
    requires forall q :: 0 <= q < |phases| ==> phases[q].attachments == a.before[q]
    requires forall q :: 0 <= q < |phases| ==> naming.objects[q] <= allObjects
    requires MakerAt(measurementMaker, m.counts, m.calls[0]) && MakerAt(attachmentMaker, a.counts, a.calls[0])
    modifies phases, measurementMaker, attachmentMaker, allObjects`name
    ensures forall q :: 0 <= q < |phases| ==> phases[q].measurements == m.after[q]
    ensures forall q :: 0 <= q < |phases| ==> phases[q].attachments == a.after[q]
    ensures CarryNames(Kept(naming, |phases|), naming.goals)
  {
    ghost var kept: set<Measurement> := {};
    for p := 0 to |phases|
      invariant forall q :: 0 <= q < p ==> phases[q].measurements == m.after[q]
      invariant forall q :: 0 <= q < p ==> phases[q].attachments == a.after[q]
      invariant forall q :: p <= q < |phases| ==> phases[q].measurements == m.before[q]
      invariant forall q :: p <= q < |phases| ==> phases[q].attachments == a.before[q]
      invariant MakerAt(measurementMaker, m.counts, m.calls[p])
      invariant MakerAt(attachmentMaker, a.counts, a.calls[p])
      invariant CarryNames(kept, naming.goals) && kept == Kept(naming, p)
    {
      PhaseIsOther(phases, naming, p);
      UniquizePhase(phases, p, measurementMaker, attachmentMaker, m, naming, a, naming.objects[p]);
      assert forall q :: p < q < |phases| ==>
        phases[q].measurements == m.before[q] && phases[q].attachments == a.before[q];
      assert forall q :: 0 <= q <= p ==> phases[q].measurements == m.after[q] && phases[q].attachments == a.after[q];
      assert CarryNames(kept, naming.goals);
      kept := kept + (if naming.own[p] then naming.left[p] else {});
    }
  }

  lemma TakeMore<T>(s: seq<T>, p: nat)
    requires p < |s|
    ensures s[..p + 1][..p] == s[..p] && s[..p + 1][p] == s[p] && |s[..p + 1]| == p + 1
  {
  }

  /** The names given to the two UniqueNameMakers. */
  method CountNames(phases: seq<PhaseRecord>) returns (names: multiset<string>, attachmentNames: multiset<string>)
    ensures names == MeasurementCounts(MeasurementDicts(phases))
    ensures attachmentNames == AttachmentCounts(MeasurementDicts(phases), AttachmentDicts(phases))
  {
    ghost var ms, ats := MeasurementDicts(phases), AttachmentDicts(phases);
    ghost var mKeys, aKeys := KeySets(ms), KeySets(ats);
    names, attachmentNames := multiset{}, multiset{};
    var multidimNames: multiset<string> := multiset{};
    for p := 0 to |phases|
      invariant names == KeyCounts(mKeys[..p])
      invariant attachmentNames == KeyCounts(aKeys[..p])
      invariant multidimNames == MultidimCounts(ms[..p])
    {
      TakeMore(mKeys, p);
      TakeMore(aKeys, p);
      TakeMore(ms, p);
      var d := phases[p].measurements;
      names := names + multiset(d.Keys);
      attachmentNames := attachmentNames + multiset(phases[p].attachments.Keys);
      multidimNames := multidimNames + multiset(MultidimNames(d));
    }
    assert mKeys[..|mKeys|] == mKeys;
    assert aKeys[..|aKeys|] == aKeys;
    assert ms[..|ms|] == ms;
    attachmentNames := attachmentNames + multidimNames;
  }

  // ---------------------------------------------------------------- the plan for given phases

  /** The key that a measurement object is left under. */
  ghost function Goal(after: seq<map<string, Measurement>>, m: Measurement): string
    requires m in MeasurementObjects(after)
  {
    var p, x :| 0 <= p < |after| && x in after[p] && after[p][x] == m;
    x
  }

  ghost function Goals(after: seq<map<string, Measurement>>): map<Measurement, string> {
    map m | m in MeasurementObjects(after) :: Goal(after, m)
  }

  lemma GoalsAreKeys(counts: multiset<string>, ms: seq<map<string, Measurement>>, p: nat)
    requires p < |ms| && OwnMeasurements(ms, p)
    ensures GoalsAre(Goals(HalfOf(counts, ms).after), Rekeyed(counts, ms, p))
  {
    var after := HalfOf(counts, ms).after;
    var from, to := SortedKeys(ms[p].Keys), NewNames(counts, KeySets(ms), p);
    forall x <- after[p] ensures after[p][x] in MeasurementObjects(after) && Goal(after, after[p][x]) == x {
      var m := after[p][x];
      var goal := Goal(after, m);
      var q, y :| 0 <= q < |after| && y in after[q] && after[q][y] == m && goal == y;
      LeftWereThere(counts, ms, p);
      LeftWereThere(counts, ms, q);
      assert m in after[p].Values && m in after[q].Values;
      if x != y { MovedObjectsDiffer(ms[p], from, to, |from|, x, y); }
    }
  }

  lemma LeftWereThere(counts: multiset<string>, ms: seq<map<string, Measurement>>, p: nat)
    requires p < |ms|
    ensures Rekeyed(counts, ms, p).Values <= ms[p].Values
  {
    MovedValues(ms[p], SortedKeys(ms[p].Keys), NewNames(counts, KeySets(ms), p), |SortedKeys(ms[p].Keys)|);
  }

  ghost function HalfOf<V>(counts: multiset<string>, ds: seq<map<string, V>>): Half<V> {
    Half(counts, seq(|ds| + 1, p requires 0 <= p <= |ds| => AllCalls(KeySets(ds)[..p])),
         ds, seq(|ds|, p requires 0 <= p < |ds| => Rekeyed(counts, ds, p)))
  }

  ghost function NamingOf(counts: multiset<string>, ms: seq<map<string, Measurement>>): Naming {
    Naming(seq(|ms|, p requires 0 <= p < |ms| => OwnMeasurements(ms, p)),
           seq(|ms|, p requires 0 <= p < |ms| => ms[p].Values),
           seq(|ms|, p requires 0 <= p < |ms| => Rekeyed(counts, ms, p).Values),
           Goals(HalfOf(counts, ms).after))
  }

  lemma HalfOfIsReady<V>(counts: multiset<string>, ds: seq<map<string, V>>, p: nat)
    requires p < |ds| && forall x :: Holding(KeySets(ds), x) <= counts[x]
    ensures HalfIsReady(HalfOf(counts, ds), |ds|, p)
  {
    var keys := KeySets(ds);
    forall n <- ds[p] ensures n in counts {
      HoldingGrows(keys, p, |keys|, n);
      assert keys[..|keys|] == keys;
    }
  }

  lemma NamingOfIsReady(counts: multiset<string>, ms: seq<map<string, Measurement>>, p: nat)
    requires p < |ms|
    ensures NamingIsReady(NamingOf(counts, ms), HalfOf(counts, ms), |ms|, p)
  {
    LeftWereThere(counts, ms, p);
    if OwnMeasurements(ms, p) {
      GoalsAreKeys(counts, ms, p);
    }
  }

  lemma NamingOfIsAlone(phases: seq<PhaseRecord>, counts: multiset<string>, ms: seq<map<string, Measurement>>)
    requires |phases| == |ms| && Distinct(phases)
    ensures PhasesAreAlone(phases, NamingOf(counts, ms))
  {
    var naming := NamingOf(counts, ms);
    forall p | 0 <= p < |phases| ensures IsAlone(phases, naming, p) {
      forall q | 0 <= q < |phases| && q != p && naming.own[q] ensures naming.left[q] !! naming.objects[p] {
        assert OwnMeasurements(ms, q);
        LeftWereThere(counts, ms, q);
      }
    }
  }

  lemma HalvesOfAreReady(ms: seq<map<string, Measurement>>, ats: seq<map<string, Attachment>>)
    requires |ms| == |ats|
    ensures var mCounts, aCounts := MeasurementCounts(ms), AttachmentCounts(ms, ats);
            HalvesAreReady(HalfOf(mCounts, ms), NamingOf(mCounts, ms), HalfOf(aCounts, ats), |ms|)
  {
    var mCounts, aCounts := MeasurementCounts(ms), AttachmentCounts(ms, ats);
    forall x ensures Holding(KeySets(ms), x) <= mCounts[x] && Holding(KeySets(ats), x) <= aCounts[x] {
      KeyCountsIsHolding(KeySets(ms), x);
      KeyCountsIsHolding(KeySets(ats), x);
    }
    forall p | 0 <= p < |ms|
      ensures HalfIsReady(HalfOf(mCounts, ms), |ms|, p) && HalfIsReady(HalfOf(aCounts, ats), |ms|, p)
      ensures NamingIsReady(NamingOf(mCounts, ms), HalfOf(mCounts, ms), |ms|, p)
    {
      HalfOfIsReady(mCounts, ms, p);
      HalfOfIsReady(aCounts, ats, p);
      NamingOfIsReady(mCounts, ms, p);
    }
  }

  lemma KeptAreNamed(counts: multiset<string>, ms: seq<map<string, Measurement>>, p: nat)
    requires p < |ms| && OwnMeasurements(ms, p)
    requires CarryNames(Kept(NamingOf(counts, ms), |ms|), NamingOf(counts, ms).goals)
    ensures KeysAreNames(Rekeyed(counts, ms, p))
  {
    KeptHolds(NamingOf(counts, ms), |ms|, p);
    GoalsAreKeys(counts, ms, p);
    var left := Rekeyed(counts, ms, p);
    forall x <- left ensures left[x] in left.Values {}
  }

  /** Where nothing is lost, that is: each measurement carries the new name of the key it had. */
  lemma NamedAfresh(counts: multiset<string>, ms: seq<map<string, Measurement>>, p: nat)
    requires p < |ms| && PhaseLandsFree(counts, ms, p) && KeysAreNames(Rekeyed(counts, ms, p))
    ensures forall n <- ms[p] :: ms[p][n].name == NewName(counts, KeySets(ms), p, n)
  {
    PhaseKeepsEntriesIff(counts, ms, p);
  }

  /** The loop, for makers that were given the counted names. */
  method UniquizeAs(
      phases: seq<PhaseRecord>, measurementMaker: UniqueNameMaker, attachmentMaker: UniqueNameMaker,
      ghost m: Half<Measurement>, ghost naming: Naming, ghost a: Half<Attachment>, ghost objects: set<Measurement>)
    requires HalvesAreReady(m, naming, a, |phases|) && PhasesAreAlone(phases, naming)
    requires measurementMaker != attachmentMaker
    requires m.before == MeasurementDicts(phases) && a.before == AttachmentDicts(phases)
    requires forall q :: 0 <= q < |phases| ==> naming.objects[q] <= objects
    requires MakerAt(measurementMaker, m.counts, m.calls[0]) && MakerAt(attachmentMaker, a.counts, a.calls[0])
    modifies phases, measurementMaker, attachmentMaker, objects`name
    ensures MeasurementDicts(phases) == m.after && AttachmentDicts(phases) == a.after
    ensures CarryNames(Kept(naming, |phases|), naming.goals)
  {
    UniquizeAll(phases, measurementMaker, attachmentMaker, m, naming, a, objects);
  }

  lemma PlanIs<V>(counts: multiset<string>, ds: seq<map<string, V>>)
    ensures var h := HalfOf(counts, ds);
            && h.counts == counts && h.before == ds && |h.calls| == |ds| + 1 && h.calls[0] == [] && |h.after| == |ds|
            && forall p :: 0 <= p < |ds| ==> h.after[p] == Rekeyed(counts, ds, p)
  {
  }

  lemma NamingIs(counts: multiset<string>, ms: seq<map<string, Measurement>>)
    ensures var naming := NamingOf(counts, ms);
            && |naming.own| == |naming.objects| == |naming.left| == |ms|
            && forall p :: 0 <= p < |ms| ==> naming.objects[p] <= MeasurementObjects(ms)
  {
  }

  /** The two loops, with the names counted before. */
  method UniquizeCounted(
      phases: seq<PhaseRecord>, names: multiset<string>, attachmentNames: multiset<string>,
      ghost ms: seq<map<string, Measurement>>, ghost ats: seq<map<string, Attachment>>)
    requires Distinct(phases) && ms == MeasurementDicts(phases) && ats == AttachmentDicts(phases)
    requires names == MeasurementCounts(ms) && attachmentNames == AttachmentCounts(ms, ats)
    modifies phases, MeasurementObjects(ms)`name
    ensures MeasurementDicts(phases) == HalfOf(names, ms).after
    ensures AttachmentDicts(phases) == HalfOf(attachmentNames, ats).after
    ensures CarryNames(Kept(NamingOf(names, ms), |phases|), NamingOf(names, ms).goals)
  {
    var measurementMaker := new UniqueNameMaker(names);
    var attachmentMaker := new UniqueNameMaker(attachmentNames);
    HalvesOfAreReady(ms, ats);
    NamingOfIsAlone(phases, names, ms);
    PlanIs(names, ms);
    PlanIs(attachmentNames, ats);
    NamingIs(names, ms);
    UniquizeAs(phases, measurementMaker, attachmentMaker,
               HalfOf(names, ms), NamingOf(names, ms), HalfOf(attachmentNames, ats), MeasurementObjects(ms));
  }

  /**
    phase_uniquizer. Every dictionary becomes what Rekeyed says, without an AssertionError or
    KeyError on the way. Where a phase shares no measurement, each that is left in it, whether or
    not others were lost, carries its key as name.
   */
  method UniquizePhases(phases: seq<PhaseRecord>)
    requires Distinct(phases)
    modifies phases, MeasurementObjects(MeasurementDicts(phases))`name
    ensures var ms, ats := old(MeasurementDicts(phases)), old(AttachmentDicts(phases));
            && (forall p :: 0 <= p < |ms| ==> MeasurementDicts(phases)[p] == Rekeyed(MeasurementCounts(ms), ms, p))
            && (forall p :: 0 <= p < |ms| ==> AttachmentDicts(phases)[p] == Rekeyed(AttachmentCounts(ms, ats), ats, p))
            && forall p :: 0 <= p < |ms| && OwnMeasurements(ms, p) ==> KeysAreNames(MeasurementDicts(phases)[p])
  {
    ghost var ms, ats := MeasurementDicts(phases), AttachmentDicts(phases);
    var names, attachmentNames := CountNames(phases);
    UniquizeCounted(phases, names, attachmentNames, ms, ats);
    PlanIs(names, ms);
    PlanIs(attachmentNames, ats);
    forall p | 0 <= p < |ms| && OwnMeasurements(ms, p) ensures KeysAreNames(Rekeyed(names, ms, p)) {
      KeptAreNamed(names, ms, p);
    }
  }
}
