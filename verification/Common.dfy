/** Small building blocks shared by the models. */
module Common {

  datatype Option<+T> = None | Some(value: T)

  function Max(a: real, b: real): real { if a >= b then a else b }

  function Min(a: real, b: real): real { if a <= b then a else b }

  function MaxNat(a: nat, b: nat): nat { if a >= b then a else b }

  /** The last `n` elements of `s`: what a deque of capacity `n` holds after `s` was appended to it. */
  function LastN<T>(n: nat, s: seq<T>): seq<T> {
    if |s| <= n then s else s[|s| - n..]
  }

  /** Appending to a deque of capacity `n` that was filled from `s` keeps the last `n` of the longer sequence. */
  lemma LastNAppend<T>(n: nat, s: seq<T>, x: T)
    ensures LastN(n, LastN(n, s) + [x]) == LastN(n, s + [x])
  {
  }

  // ----- selections

  /** The numbers below `n` that satisfy `q`, in order. */
  predicate PlacesWhere(n: nat, q: nat -> bool, places: seq<nat>) {
    && (forall i, j :: 0 <= i < j < |places| ==> places[i] < places[j])
    && (forall i :: 0 <= i < |places| ==> places[i] < n)
    && (forall k: nat :: k < n ==> (q(k) <==> k in places))
  }

  predicate TakenFrom<T(==)>(s: seq<T>, places: seq<nat>, r: seq<T>) {
    |r| == |places| && forall i :: 0 <= i < |places| ==> places[i] < |s| && r[i] == s[places[i]]
  }

  /** `r` is exactly what stands in `s` at the places that satisfy `q`, in order. */
  ghost predicate SelectsAt<T>(s: seq<T>, q: nat -> bool, r: seq<T>) {
    exists places: seq<nat> :: PlacesWhere(|s|, q, places) && TakenFrom(s, places, r)
  }

  function Where<T>(s: seq<T>, p: T -> bool): nat -> bool { (k: nat) => k < |s| && p(s[k]) }

  /** `r` is exactly the elements of `s` that satisfy `p`, each as often as it stands there and in order. */
  ghost predicate Selects<T>(s: seq<T>, p: T -> bool, r: seq<T>) { SelectsAt(s, Where(s, p), r) }

  lemma SelectsAtNone<T>(q: nat -> bool)
    ensures SelectsAt<T>([], q, [])
  {
    assert PlacesWhere(0, q, []) && TakenFrom<T>([], [], []);
  }

  lemma SelectsNone<T>(p: T -> bool)
    ensures Selects([], p, [])
  {
    SelectsAtNone<T>(Where([], p));
  }

  lemma PlacesNext(n: nat, q0: nat -> bool, q: nat -> bool, places: seq<nat>)
    requires PlacesWhere(n, q0, places) && forall k: nat :: k < n ==> q(k) == q0(k)
    ensures PlacesWhere(n + 1, q, if q(n) then places + [n] else places)
  {
  }

  lemma TakenNext<T>(s: seq<T>, places: seq<nat>, r: seq<T>)
    requires s != [] && TakenFrom(s[..|s| - 1], places, r)
    ensures TakenFrom(s, places, r) && TakenFrom(s, places + [|s| - 1], r + [s[|s| - 1]])
  {
    forall i | 0 <= i < |places| ensures places[i] < |s| && r[i] == s[places[i]] {
      assert s[..|s| - 1][places[i]] == s[places[i]];
    }
  }

  lemma SelectedBy<T>(s: seq<T>, q: nat -> bool, places: seq<nat>, r: seq<T>)
    requires PlacesWhere(|s|, q, places) && TakenFrom(s, places, r)
    ensures SelectsAt(s, q, r)
  {
  }

  lemma SelectsAtNext<T>(s: seq<T>, q0: nat -> bool, q: nat -> bool, r: seq<T>)
    requires s != [] && SelectsAt(s[..|s| - 1], q0, r) && forall k: nat :: k < |s| - 1 ==> q(k) == q0(k)
    ensures SelectsAt(s, q, if q(|s| - 1) then r + [s[|s| - 1]] else r)
  {
    var places: seq<nat> :| PlacesWhere(|s| - 1, q0, places) && TakenFrom(s[..|s| - 1], places, r);
    PlacesNext(|s| - 1, q0, q, places);
    TakenNext(s, places, r);
    if q(|s| - 1) { SelectedBy(s, q, places + [|s| - 1], r + [s[|s| - 1]]); } else { SelectedBy(s, q, places, r); }
  }

  lemma SelectsAll<T>(s: seq<T>, q: nat -> bool)
    requires forall k: nat :: k < |s| ==> q(k)
    ensures SelectsAt(s, q, s)
  {
    var places: seq<nat> := seq(|s|, (i: nat) => i);
    forall k: nat | k < |s| ensures k in places { assert places[k] == k; }
    SelectedBy(s, q, places, s);
  }

  lemma SelectsNext<T>(s: seq<T>, p: T -> bool, r: seq<T>)
    requires s != [] && Selects(s[..|s| - 1], p, r)
    ensures Selects(s, p, if p(s[|s| - 1]) then r + [s[|s| - 1]] else r)
  {
    SelectsAtNext(s, Where(s[..|s| - 1], p), Where(s, p), r);
  }

  /** The places in `s` of the elements that satisfy `p`. */
  function Spots<T>(s: seq<T>, p: T -> bool): set<nat> { set i: nat | i < |s| && p(s[i]) }

  lemma SpotsNext<T>(s: seq<T>, p: T -> bool)
    requires s != []
    ensures |Spots(s, p)| == |Spots(s[..|s| - 1], p)| + (if p(s[|s| - 1]) then 1 else 0)
  {
    var n := |s| - 1;
    var before := Spots(s[..n], p);
    assert Spots(s, p) == if p(s[n]) then before + {n} else before;
  }

  // ----- what a history puts out

  /** The concatenation of what every non-empty prefix of `h` puts out. */
  function Outputs<L, E>(out: seq<L> -> seq<E>, h: seq<L>): seq<E> {
    if h == [] then [] else Outputs(out, h[..|h| - 1]) + out(h)
  }

  /** What further inputs add. */
  function Added<L, E>(out: seq<L> -> seq<E>, h: seq<L>, more: seq<L>): seq<E> {
    if more == [] then [] else Added(out, h, more[..|more| - 1]) + out(h + more)
  }

  lemma NoMore<T>(a: seq<T>)
    ensures a + [] == a
  {
  }

  lemma Regroup<T>(a: seq<T>, b: seq<T>, c: seq<T>)
    ensures a + b + c == a + (b + c)
  {
  }

  lemma OutputsNext<L, E>(out: seq<L> -> seq<E>, h: seq<L>, l: L)
    ensures Outputs(out, h + [l]) == Outputs(out, h) + out(h + [l])
  {
    assert (h + [l])[..|h|] == h;
  }

  lemma {:induction false} OutputsAppend<L, E>(out: seq<L> -> seq<E>, h: seq<L>, more: seq<L>)
    ensures Outputs(out, h + more) == Outputs(out, h) + Added(out, h, more)
  {
    if more == [] {
      NoMore(h);
      NoMore(Outputs(out, h));
    } else {
      var less, l := more[..|more| - 1], more[|more| - 1];
      OutputsAppend(out, h, less);
      OutputsNext(out, h + less, l);
      assert h + less + [l] == h + more;
      Regroup(Outputs(out, h), Added(out, h, less), out(h + more));
    }
  }
}
