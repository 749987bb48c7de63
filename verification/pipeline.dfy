/**
 * The shapes the spiders' loops share: list comprehensions and `extend`
 * loops that concatenate per-item results, where an exception raised for
 * one item abandons the whole loop.
 */
module Pipeline {

  import opened Wrappers

  /** The concatenation of the groups, in order. */
  function Flatten<U>(xss: seq<seq<U>>): seq<U> {
    if |xss| == 0 then [] else xss[0] + Flatten(xss[1..])
  }

  lemma {:induction false} FlattenMember<U>(xss: seq<seq<U>>, u: U)
    ensures u in Flatten(xss) <==> exists i :: 0 <= i < |xss| && u in xss[i]
  {
    if |xss| > 0 {
      FlattenMember(xss[1..], u);
      if exists i :: 1 <= i < |xss| && u in xss[i] {
        var i :| 1 <= i < |xss| && u in xss[i];
        assert u in xss[1..][i - 1];
      }
      if exists i :: 0 <= i < |xss[1..]| && u in xss[1..][i] {
        var i :| 0 <= i < |xss[1..]| && u in xss[1..][i];
        assert u in xss[i + 1];
      }
    }
  }

  /** Flattening distributes over concatenation of the groups. */
  lemma {:induction false} FlattenAppend<U>(xss: seq<seq<U>>, yss: seq<seq<U>>)
    ensures Flatten(xss + yss) == Flatten(xss) + Flatten(yss)
  {
    if |xss| > 0 {
      FlattenAppend(xss[1..], yss);
      assert (xss + yss)[1..] == xss[1..] + yss;
    } else {
      assert xss + yss == yss;
    }
  }

  /** The concatenation is empty exactly when every group is. */
  lemma {:induction false} FlattenEmpty<U>(xss: seq<seq<U>>)
    ensures |Flatten(xss)| == 0 <==> forall i :: 0 <= i < |xss| ==> |xss[i]| == 0
  {
    if |xss| > 0 {
      FlattenEmpty(xss[1..]);
      assert forall i :: 1 <= i < |xss| ==> xss[i] == xss[1..][i - 1];
    }
  }

  /** Keys never decrease along `s`. */
  ghost predicate SortedBy<U>(s: seq<U>, key: U -> int) {
    forall a, b :: 0 <= a < b < |s| ==> key(s[a]) <= key(s[b])
  }

  lemma SortedConcat<U>(s: seq<U>, t: seq<U>, key: U -> int)
    requires SortedBy(s, key) && SortedBy(t, key)
    requires forall u, v :: u in s && v in t ==> key(u) <= key(v)
    ensures SortedBy(s + t, key)
  {
    var st := s + t;
    forall a, b | 0 <= a < b < |st| ensures key(st[a]) <= key(st[b]) {
      if b < |s| {
        assert st[a] == s[a] && st[b] == s[b];
      } else if a >= |s| {
        assert st[a] == t[a - |s|] && st[b] == t[b - |s|];
      } else {
        assert st[a] in s && st[b] in t;
      }
    }
  }

  /** Groups listed by key, each with a single key, concatenate into a sequence sorted by key. */
  lemma {:induction false} FlattenGrouped<U>(xss: seq<seq<U>>, key: U -> int, base: int)
    requires forall i, u :: 0 <= i < |xss| && u in xss[i] ==> key(u) == base + i
    ensures SortedBy(Flatten(xss), key)
  {
    if |xss| > 0 {
      var rest := xss[1..];
      forall i, u | 0 <= i < |rest| && u in rest[i] ensures key(u) == base + 1 + i {
        assert u in xss[i + 1];
      }
      FlattenGrouped(rest, key, base + 1);
      forall v | v in Flatten(rest) ensures key(v) >= base + 1 {
        FlattenMember(rest, v);
      }
      assert SortedBy(xss[0], key) by {
        forall a, b | 0 <= a < b < |xss[0]| ensures key(xss[0][a]) <= key(xss[0][b]) {
          assert xss[0][a] in xss[0] && xss[0][b] in xss[0];
        }
      }
      SortedConcat(xss[0], Flatten(rest), key);
    }
  }

  /** The call on `xs[i]` is the first to fail, and it fails with `e`. */
  ghost predicate FirstErrorAt<T, V, E>(xs: seq<T>, f: T -> Result<V, E>, i: int, e: E) {
    && 0 <= i < |xs|
    && f(xs[i]) == Err(e)
    && forall j :: 0 <= j < i ==> f(xs[j]).Ok?
  }

  /** A first failure in the tail is the first failure of the whole sequence when the head succeeds. */
  lemma FirstErrorOfTail<T, V, E>(xs: seq<T>, f: T -> Result<V, E>, e: E)
    requires |xs| > 0 && f(xs[0]).Ok?
    requires exists i :: FirstErrorAt(xs[1..], f, i, e)
    ensures exists i :: FirstErrorAt(xs, f, i, e)
  {
    var i :| FirstErrorAt(xs[1..], f, i, e);
    assert forall j :: 1 <= j < |xs| ==> xs[j] == xs[1..][j - 1];
    assert FirstErrorAt(xs, f, i + 1, e);
  }

  /** The values of the successful calls, with an empty group for a failed one. */
  function OkValues<T, U, E>(xs: seq<T>, f: T -> Result<seq<U>, E>): (r: seq<seq<U>>)
    ensures |r| == |xs|
  {
    seq(|xs|, i requires 0 <= i < |xs| => f(xs[i]).GetOr([]))
  }

  /**
   * `for x in xs: out.extend(f(x))`: the results concatenated in order, or
   * the exception of the first call that raised.
   */
  function CollectAll<T, U, E>(xs: seq<T>, f: T -> Result<seq<U>, E>): (r: Result<seq<U>, E>)
    ensures r.Ok? <==> forall i :: 0 <= i < |xs| ==> f(xs[i]).Ok?
    ensures r.Ok? ==> r.value == Flatten(OkValues(xs, f))
    ensures r.Err? ==> exists i :: FirstErrorAt(xs, f, i, r.error)
  {
    if |xs| == 0 then Ok([])
    else
      var head :- (assert f(xs[0]).Ok? || FirstErrorAt(xs, f, 0, f(xs[0]).error); f(xs[0]));
      var tail := CollectAll(xs[1..], f);
      assert forall i :: 1 <= i < |xs| ==> xs[i] == xs[1..][i - 1];
      if tail.Err? then
        FirstErrorOfTail(xs, f, tail.error);
        Err(tail.error)
      else
        assert OkValues(xs, f) == [head] + OkValues(xs[1..], f);
        Ok(head + tail.value)
  }

  /** An element of a collected result came from the call on one of the inputs. */
  lemma CollectAllMember<T, U, E>(xs: seq<T>, f: T -> Result<seq<U>, E>, u: U)
    requires CollectAll(xs, f).Ok?
    ensures u in CollectAll(xs, f).value <==> exists i :: 0 <= i < |xs| && u in f(xs[i]).value
  {
    FlattenMember(OkValues(xs, f), u);
    if exists i :: 0 <= i < |xs| && u in f(xs[i]).value {
      var i :| 0 <= i < |xs| && u in f(xs[i]).value;
      assert u in OkValues(xs, f)[i];
    }
  }

  /** `[f(x) for x in xs]`: every result in order, or the first exception. */
  function MapAll<T, U, E>(xs: seq<T>, f: T -> Result<U, E>): (r: Result<seq<U>, E>)
    ensures r.Ok? <==> forall i :: 0 <= i < |xs| ==> f(xs[i]).Ok?
    ensures r.Ok? ==> |r.value| == |xs| && forall i :: 0 <= i < |xs| ==> f(xs[i]) == Ok(r.value[i])
    ensures r.Err? ==> exists i :: FirstErrorAt(xs, f, i, r.error)
  {
    if |xs| == 0 then Ok([])
    else
      var head :- (assert f(xs[0]).Ok? || FirstErrorAt(xs, f, 0, f(xs[0]).error); f(xs[0]));
      var tail := MapAll(xs[1..], f);
      assert forall i :: 1 <= i < |xs| ==> xs[i] == xs[1..][i - 1];
      if tail.Err? then
        FirstErrorOfTail(xs, f, tail.error);
        Err(tail.error)
      else
        Ok([head] + tail.value)
  }

  /** Each call's value in item order, `None` standing also for a call that raised. */
  function Results<T, U, E>(xs: seq<T>, f: T -> Result<Option<U>, E>): (r: seq<Option<U>>)
    ensures |r| == |xs| && forall i :: 0 <= i < |xs| ==> r[i] == f(xs[i]).GetOr(None)
  {
    if |xs| == 0 then [] else [f(xs[0]).GetOr(None)] + Results(xs[1..], f)
  }

  /**
   * `[y for x in xs for y in [f(x)] if y is not None]`: when no call raises,
   * the present results in input order, so exactly the values some call
   * returned; otherwise the first exception.
   */
  function KeepPresent<T, U(!new), E>(xs: seq<T>, f: T -> Result<Option<U>, E>): (r: Result<seq<U>, E>)
    ensures r.Ok? <==> forall i :: 0 <= i < |xs| ==> f(xs[i]).Ok?
    ensures r.Ok? ==> r.value == Present(Results(xs, f))
    ensures r.Ok? ==> forall u :: u in r.value <==> exists i :: 0 <= i < |xs| && f(xs[i]) == Ok(Some(u))
    ensures r.Err? ==> exists i :: FirstErrorAt(xs, f, i, r.error)
  {
    var found :- MapAll(xs, f);
    assert found == Results(xs, f);
    forall u ensures Some(u) in found <==> exists i :: 0 <= i < |xs| && f(xs[i]) == Ok(Some(u)) {
      if Some(u) in found {
        var i :| 0 <= i < |found| && found[i] == Some(u);
        assert f(xs[i]) == Ok(Some(u));
      }
    }
    Ok(Present(found))
  }

  /** The present values, in order: `[y for y in ys if y is not None]`. */
  function Present<U(!new)>(ys: seq<Option<U>>): (r: seq<U>)
    ensures |r| <= |ys|
    ensures forall u :: u in r <==> Some(u) in ys
  {
    if |ys| == 0 then []
    else
      var rest := Present(ys[1..]);
      assert forall y :: y in ys <==> y == ys[0] || y in ys[1..];
      if ys[0].Some? then [ys[0].value] + rest else rest
  }
}
