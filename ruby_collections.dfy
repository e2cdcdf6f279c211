/**
 * Enumerable#find and the insertion-ordered Hash that the disk-space
 * checks fill with per-repository byte totals.
 */
module RubyCollections {
  import opened Wrappers

  /** Enumerable#find, as a position: the first index whose element satisfies `p`. */
  function FindFirst<T>(xs: seq<T>, p: T -> bool): (r: Option<nat>)
    ensures r.Some? ==> r.value < |xs| && p(xs[r.value]) && forall j :: 0 <= j < r.value ==> !p(xs[j])
    ensures r.None? <==> forall j :: 0 <= j < |xs| ==> !p(xs[j])
    decreases |xs|
  {
    if |xs| == 0 then None
    else if p(xs[0]) then Some(0)
    else
      match FindFirst(xs[1..], p)
      case None => None
      case Some(i) => Some(i + 1)
  }

  /** A Ruby Hash from a key to a byte count; the pairs are kept in insertion order. */
  type Totals = seq<(string, nat)>

  predicate HasKey(t: Totals, k: string) {
    exists i :: 0 <= i < |t| && t[i].0 == k
  }

  predicate DistinctKeys(t: Totals) {
    forall i, j :: 0 <= i < j < |t| ==> t[i].0 != t[j].0
  }

  /** `h[k] || 0`: the count stored under `k`, or 0 when `k` is absent. */
  function Get(t: Totals, k: string): nat {
    if |t| == 0 then 0 else if t[0].0 == k then t[0].1 else Get(t[1..], k)
  }

  /** `h[k] ||= 0; h[k] += n`: an existing key keeps its place, a new key goes last. */
  function Add(t: Totals, k: string, n: nat): Totals
    decreases |t|
  {
    if |t| == 0 then [(k, n)]
    else if t[0].0 == k then [(k, t[0].1 + n)] + t[1..]
    else [t[0]] + Add(t[1..], k, n)
  }

  /** Adding keeps every existing key in its place and appends a key that was absent. */
  lemma {:induction false} AddKeepsOrder(t: Totals, k: string, n: nat)
    ensures |Add(t, k, n)| == (if HasKey(t, k) then |t| else |t| + 1)
    ensures forall i :: 0 <= i < |t| ==> Add(t, k, n)[i].0 == t[i].0
    ensures !HasKey(t, k) ==> Add(t, k, n)[|t|] == (k, n)
    decreases |t|
  {
    if |t| > 0 && t[0].0 != k {
      AddKeepsOrder(t[1..], k, n);
      assert HasKey(t, k) <==> HasKey(t[1..], k) by {
        if HasKey(t, k) {
          var i :| 0 <= i < |t| && t[i].0 == k;
          assert t[1..][i - 1].0 == k;
        }
      }
    }
  }

  /** After adding, the keys present are the old ones and `k`. */
  lemma {:induction false} AddKeys(t: Totals, k: string, n: nat, k': string)
    ensures HasKey(Add(t, k, n), k') <==> HasKey(t, k') || k' == k
  {
    AddKeepsOrder(t, k, n);
    var r := Add(t, k, n);
    if HasKey(r, k') && k' != k {
      var i :| 0 <= i < |r| && r[i].0 == k';
      assert i < |t|;
      assert t[i].0 == k';
    }
    if HasKey(t, k') {
      var i :| 0 <= i < |t| && t[i].0 == k';
      assert r[i].0 == k';
    }
    if k' == k && !HasKey(t, k) {
      assert r[|t|].0 == k;
    }
  }

  /** Adding changes the count of `k` by `n` and no other count. */
  lemma {:induction false} AddGet(t: Totals, k: string, n: nat, k': string)
    ensures Get(Add(t, k, n), k') == Get(t, k') + (if k' == k then n else 0)
    decreases |t|
  {
    if |t| > 0 && t[0].0 != k {
      AddGet(t[1..], k, n, k');
    }
  }

  /** Adding keeps the keys distinct. */
  lemma AddDistinct(t: Totals, k: string, n: nat)
    requires DistinctKeys(t)
    ensures DistinctKeys(Add(t, k, n))
  {
    AddKeepsOrder(t, k, n);
    var r := Add(t, k, n);
    if !HasKey(t, k) {
      forall i | 0 <= i < |t| ensures r[i].0 != r[|t|].0 {
        assert t[i].0 != k;
      }
    }
  }

  /** The sum of the counts paired with `k`. */
  function SumFor(es: seq<(string, nat)>, k: string): nat {
    if |es| == 0 then 0
    else SumFor(es[..|es| - 1], k) + (if es[|es| - 1].0 == k then es[|es| - 1].1 else 0)
  }

  /** The hash a loop of `h[k] ||= 0; h[k] += n` over `es` leaves behind. */
  function Group(es: seq<(string, nat)>): Totals
    decreases |es|
  {
    if |es| == 0 then [] else Add(Group(es[..|es| - 1]), es[|es| - 1].0, es[|es| - 1].1)
  }

  /** That hash has one entry per distinct key, holding the sum of that key's counts. */
  lemma {:induction false} GroupSpec(es: seq<(string, nat)>)
    ensures DistinctKeys(Group(es))
    ensures forall k :: HasKey(Group(es), k) <==> HasKey(es, k)
    ensures forall k :: Get(Group(es), k) == SumFor(es, k)
    decreases |es|
  {
    if |es| > 0 {
      var init := es[..|es| - 1];
      var last := es[|es| - 1];
      GroupSpec(init);
      AddDistinct(Group(init), last.0, last.1);
      forall k ensures Get(Group(es), k) == SumFor(es, k) {
        AddGet(Group(init), last.0, last.1, k);
      }
      forall k ensures HasKey(Group(es), k) <==> HasKey(Group(init), k) || k == last.0 {
        AddKeys(Group(init), last.0, last.1, k);
      }
      assert forall k :: HasKey(es, k) <==> HasKey(init, k) || k == last.0 by {
        forall k ensures HasKey(es, k) <==> HasKey(init, k) || k == last.0 {
          if HasKey(es, k) && k != last.0 {
            var i :| 0 <= i < |es| && es[i].0 == k;
            assert init[i].0 == k;
          }
          if HasKey(init, k) {
            var i :| 0 <= i < |init| && init[i].0 == k;
            assert es[i].0 == k;
          }
        }
      }
    }
  }
}
