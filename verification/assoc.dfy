/** Insertion-ordered maps, as Python's `dict`: a sequence of key/value
    pairs read by key. Assigning to a present key replaces its value where
    it stands; assigning to a new key appends it. */
module Assoc {
  import opened Wrappers

  function Keys<V>(m: seq<(string, V)>): (r: seq<string>)
    ensures |r| == |m| && forall i :: 0 <= i < |m| ==> r[i] == m[i].0
  {
    seq(|m|, i requires 0 <= i < |m| => m[i].0)
  }

  function Values<V>(m: seq<(string, V)>): (r: seq<V>)
    ensures |r| == |m| && forall i :: 0 <= i < |m| ==> r[i] == m[i].1
  {
    seq(|m|, i requires 0 <= i < |m| => m[i].1)
  }

  predicate HasKey<V>(m: seq<(string, V)>, k: string) {
    exists i :: 0 <= i < |m| && m[i].0 == k
  }

  predicate UniqueKeys<V>(m: seq<(string, V)>) {
    forall i, j :: 0 <= i < j < |m| ==> m[i].0 != m[j].0
  }

  /** The position of `k` in `m`, if present. */
  function IndexOf<V>(m: seq<(string, V)>, k: string): (r: Option<nat>)
    ensures r.Some? ==> r.value < |m| && m[r.value].0 == k
                        && forall j :: 0 <= j < r.value ==> m[j].0 != k
    ensures r.None? ==> forall j :: 0 <= j < |m| ==> m[j].0 != k
  {
    if |m| == 0 then None
    else if m[0].0 == k then Some(0)
    else
      match IndexOf(m[1..], k)
      case None => None
      case Some(i) => Some(i + 1)
  }

  /** Python's `m.get(k)`: the value stored under `k`, if any. */
  function Get<V>(m: seq<(string, V)>, k: string): (r: Option<V>)
    ensures r.Some? <==> HasKey(m, k)
    ensures r.Some? ==> exists i :: 0 <= i < |m| && m[i] == (k, r.value)
    ensures forall i :: 0 <= i < |m| && m[i].0 == k && UniqueKeys(m) ==> r == Some(m[i].1)
  {
    match IndexOf(m, k)
    case None => None
    case Some(i) => Some(m[i].1)
  }

  /** Python's `m.get(k, default)`. */
  function GetOr<V>(m: seq<(string, V)>, k: string, default: V): (r: V)
    ensures HasKey(m, k) ==> Some(r) == Get(m, k)
    ensures !HasKey(m, k) ==> r == default
  {
    match Get(m, k)
    case Some(v) => v
    case None => default
  }

  /** Python's `m[k] = v`. */
  function Put<V>(m: seq<(string, V)>, k: string, v: V): (r: seq<(string, V)>)
    ensures Get(r, k) == Some(v)
    ensures forall k' :: k' != k ==> Get(r, k') == Get(m, k')
    ensures HasKey(m, k) ==> Keys(r) == Keys(m)
    ensures !HasKey(m, k) ==> r == m + [(k, v)]
    ensures UniqueKeys(m) ==> UniqueKeys(r)
    ensures forall p :: p in r ==> p in m || p == (k, v)
  {
    match IndexOf(m, k)
    case Some(i) =>
      var r := m[i := (k, v)];
      assert Keys(r) == Keys(m);
      ReplacedIndex(m, i, k, v);
      r
    case None =>
      AppendedIndex(m, k, v);
      m + [(k, v)]
  }

  lemma ReplacedIndex<V>(m: seq<(string, V)>, i: nat, k: string, v: V)
    requires i < |m| && m[i].0 == k
    ensures forall k' :: IndexOf(m[i := (k, v)], k') == IndexOf(m, k')
    ensures forall k' :: k' != k ==> Get(m[i := (k, v)], k') == Get(m, k')
  {
    forall k' ensures IndexOf(m[i := (k, v)], k') == IndexOf(m, k') {
      SameKeysSameIndex(m[i := (k, v)], m, k');
    }
    forall k' | k' != k ensures Get(m[i := (k, v)], k') == Get(m, k') {
      match IndexOf(m, k')
      case None =>
      case Some(j) =>
        assert j != i;
    }
  }

  lemma AppendedIndex<V>(m: seq<(string, V)>, k: string, v: V)
    requires IndexOf(m, k).None?
    ensures forall k' :: k' != k ==> IndexOf(m + [(k, v)], k') == IndexOf(m, k')
    ensures IndexOf(m + [(k, v)], k) == Some(|m|)
  {
    forall k' ensures IndexOf(m + [(k, v)], k') == if k' == k then Some(|m|) else IndexOf(m, k') {
      AppendedIndexOne(m, k, v, k');
    }
  }

  lemma AppendedIndexOne<V>(m: seq<(string, V)>, k: string, v: V, k': string)
    requires IndexOf(m, k).None?
    ensures IndexOf(m + [(k, v)], k') == if k' == k then Some(|m|) else IndexOf(m, k')
  {
    var m' := m + [(k, v)];
    assert forall j :: 0 <= j < |m| ==> m'[j] == m[j];
    assert m'[|m|] == (k, v);
  }

  lemma SameKeysSameIndex<V, W>(a: seq<(string, V)>, b: seq<(string, W)>, k: string)
    requires |a| == |b| && forall i :: 0 <= i < |a| ==> a[i].0 == b[i].0
    ensures IndexOf(a, k) == IndexOf(b, k)
  {
    match IndexOf(a, k)
    case None =>
    case Some(i) =>
      match IndexOf(b, k)
      case None =>
      case Some(j) =>
        if i < j {
        } else if j < i {
        }
  }

  /** Python's `{**base, **extra}`: every pair of `extra` assigned over
      `base` in order. */
  function Overlay<V>(base: seq<(string, V)>, extra: seq<(string, V)>): seq<(string, V)>
    decreases |extra|
  {
    if |extra| == 0 then base else Overlay(Put(base, extra[0].0, extra[0].1), extra[1..])
  }

  /** The keys of an overlay are those of either side; distinct keys stay
      distinct. */
  lemma {:induction false} OverlayKeys<V>(base: seq<(string, V)>, extra: seq<(string, V)>)
    ensures forall k :: HasKey(Overlay(base, extra), k) <==> HasKey(base, k) || HasKey(extra, k)
    ensures UniqueKeys(base) ==> UniqueKeys(Overlay(base, extra))
    decreases |extra|
  {
    if |extra| > 0 {
      var next := Put(base, extra[0].0, extra[0].1);
      OverlayKeys(next, extra[1..]);
      forall k ensures HasKey(next, k) <==> HasKey(base, k) || k == extra[0].0 {
        assert HasKey(next, k) <==> Get(next, k).Some?;
      }
      forall k ensures HasKey(extra, k) <==> k == extra[0].0 || HasKey(extra[1..], k) {
        if HasKey(extra, k) && k != extra[0].0 {
          var i :| 0 <= i < |extra| && extra[i].0 == k;
          assert extra[1..][i - 1] == extra[i];
        }
        if HasKey(extra[1..], k) {
          var i :| 0 <= i < |extra[1..]| && extra[1..][i].0 == k;
          assert extra[i + 1] == extra[1..][i];
        }
      }
    }
  }

  /** Every pair of an overlay is a pair of one of its sides. */
  lemma {:induction false} OverlayPairs<V>(base: seq<(string, V)>, extra: seq<(string, V)>)
    ensures forall p :: p in Overlay(base, extra) ==> p in base || p in extra
    decreases |extra|
  {
    if |extra| > 0 {
      var next := Put(base, extra[0].0, extra[0].1);
      OverlayPairs(next, extra[1..]);
      assert forall p :: p in extra[1..] ==> p in extra;
    }
  }

  /** The tail of a map with distinct keys has distinct keys, lacks the
      head's key, and reads every other key as the whole map does. */
  lemma TailOfUnique<V>(m: seq<(string, V)>, k: string)
    requires |m| > 0 && UniqueKeys(m)
    ensures UniqueKeys(m[1..])
    ensures k == m[0].0 ==> !HasKey(m[1..], k)
    ensures k != m[0].0 ==> Get(m[1..], k) == Get(m, k)
  {
    assert UniqueKeys(m[1..]) by {
      forall i, j | 0 <= i < j < |m[1..]| ensures m[1..][i].0 != m[1..][j].0 {
        assert m[1..][i] == m[i + 1] && m[1..][j] == m[j + 1];
      }
    }
    if k == m[0].0 {
      forall i | 0 <= i < |m[1..]| ensures m[1..][i].0 != k {
        assert m[1..][i] == m[i + 1];
      }
    }
  }

  /** Later pairs win: a key of `extra` reads its `extra` value, any other
      key reads its `base` value. */
  lemma {:induction false} OverlayGet<V>(base: seq<(string, V)>, extra: seq<(string, V)>, k: string)
    requires UniqueKeys(extra)
    ensures HasKey(extra, k) ==> Get(Overlay(base, extra), k) == Get(extra, k)
    ensures !HasKey(extra, k) ==> Get(Overlay(base, extra), k) == Get(base, k)
    decreases |extra|
  {
    if |extra| > 0 {
      var next := Put(base, extra[0].0, extra[0].1);
      TailOfUnique(extra, k);
      OverlayGet(next, extra[1..], k);
      assert Overlay(base, extra) == Overlay(next, extra[1..]);
      if k == extra[0].0 {
        assert Get(extra, k) == Some(extra[0].1);
      } else {
        assert HasKey(extra, k) <==> HasKey(extra[1..], k);
      }
    }
  }

  /** Assigning the pairs of a map with distinct keys, in order, into an
      empty map rebuilds that same map. */
  lemma {:induction false} PutAllUnique<V>(acc: seq<(string, V)>, m: seq<(string, V)>)
    requires UniqueKeys(acc + m)
    ensures Overlay(acc, m) == acc + m
    decreases |m|
  {
    if |m| > 0 {
      assert !HasKey(acc, m[0].0) by {
        forall i | 0 <= i < |acc| ensures acc[i].0 != m[0].0 {
          assert (acc + m)[i] == acc[i] && (acc + m)[|acc|] == m[0];
        }
      }
      assert acc + [m[0]] + m[1..] == acc + m;
      PutAllUnique(acc + [m[0]], m[1..]);
    }
  }

  /** Assigning the pairs of a map with distinct keys into an empty map
      gives that map. */
  lemma OverlayOntoEmpty<V>(m: seq<(string, V)>)
    requires UniqueKeys(m)
    ensures Overlay([], m) == m
  {
    assert [] + m == m;
    PutAllUnique([], m);
  }
}
