/**
 * The `std::map<std::string, std::string>` the server collects request
 * headers into: an association list kept in strictly increasing key order
 * under `std::string`'s `operator<`, which is also the order a range-for
 * visits it in.
 */
module HeaderMap {
  import opened Wrappers

  /**
   * `std::string`'s `operator<`: byte-wise lexicographic comparison (as
   * `unsigned char`), a proper prefix ordered first.
   */
  predicate Less(a: string, b: string)
    decreases |a|
  {
    if |a| == 0 then |b| > 0
    else if |b| == 0 then false
    else if a[0] != b[0] then a[0] < b[0]
    else Less(a[1..], b[1..])
  }

  lemma {:induction false} LessIrreflexive(a: string)
    ensures !Less(a, a)
    decreases |a|
  {
    if |a| > 0 {
      LessIrreflexive(a[1..]);
    }
  }

  lemma {:induction false} LessTransitive(a: string, b: string, c: string)
    requires Less(a, b) && Less(b, c)
    ensures Less(a, c)
    decreases |a|
  {
    if |a| > 0 && a[0] == b[0] && b[0] == c[0] {
      LessTransitive(a[1..], b[1..], c[1..]);
    }
  }

  /** Any two distinct keys are ordered one way or the other. */
  lemma {:induction false} LessTotal(a: string, b: string)
    ensures a == b || Less(a, b) || Less(b, a)
    decreases |a|
  {
    if |a| > 0 && |b| > 0 && a[0] == b[0] {
      LessTotal(a[1..], b[1..]);
      if a[1..] == b[1..] {
        assert a == [a[0]] + a[1..] && b == [b[0]] + b[1..];
      }
    }
  }

  /** The entries, first key first. */
  type Map = seq<(string, string)>

  function Keys(m: Map): set<string> {
    if |m| == 0 then {} else {m[0].0} + Keys(m[1..])
  }

  /** Each key is below every key after it: the order `std::map` keeps. */
  predicate Ordered(m: Map) {
    |m| == 0 || ((forall k :: k in Keys(m[1..]) ==> Less(m[0].0, k)) && Ordered(m[1..]))
  }

  /** `m.count(k) ? m[k]` : the value stored under `k`, if any. */
  function Lookup(m: Map, k: string): (r: Option<string>)
    ensures r.Some? <==> k in Keys(m)
  {
    if |m| == 0 then None else if m[0].0 == k then Some(m[0].1) else Lookup(m[1..], k)
  }

  /**
   * `m[k] = v`: replaces the value of an existing key, or adds the key at
   * its place in the order. Afterwards `k` holds `v`, every other key holds
   * what it held, and the order is kept.
   */
  function Insert(m: Map, k: string, v: string): (r: Map)
    ensures Keys(r) == Keys(m) + {k}
    ensures Lookup(r, k) == Some(v)
    ensures forall k' :: k' != k ==> Lookup(r, k') == Lookup(m, k')
    ensures Ordered(m) ==> Ordered(r)
  {
    if |m| == 0 then [(k, v)]
    else if m[0].0 == k then [(k, v)] + m[1..]
    else if Less(k, m[0].0) then
      InsertBeforeOrdered(m, k);
      [(k, v)] + m
    else
      LessTotal(k, m[0].0);
      [m[0]] + Insert(m[1..], k, v)
  }

  lemma InsertBeforeOrdered(m: Map, k: string)
    requires |m| > 0 && Less(k, m[0].0)
    ensures Ordered(m) ==> forall k' :: k' in Keys(m) ==> Less(k, k')
  {
    if Ordered(m) {
      forall k' | k' in Keys(m)
        ensures Less(k, k')
      {
        if k' != m[0].0 {
          LessTransitive(k, m[0].0, k');
        }
      }
    }
  }

  lemma {:induction false} KeysHas(m: Map, j: nat)
    requires j < |m|
    ensures m[j].0 in Keys(m)
  {
    if j > 0 {
      KeysHas(m[1..], j - 1);
    }
  }

  /** In an ordered map no key appears twice, as in a `std::map`. */
  lemma {:induction false} OrderedUniqueKeys(m: Map)
    requires Ordered(m)
    ensures forall i, j :: 0 <= i < j < |m| ==> m[i].0 != m[j].0
  {
    if |m| > 0 {
      OrderedUniqueKeys(m[1..]);
      forall j | 0 < j < |m|
        ensures m[0].0 != m[j].0
      {
        KeysHas(m[1..], j - 1);
        LessIrreflexive(m[0].0);
      }
      forall i, j | 0 < i < j < |m|
        ensures m[i].0 != m[j].0
      {
        assert m[i].0 == m[1..][i - 1].0 && m[j].0 == m[1..][j - 1].0;
      }
    }
  }
}
