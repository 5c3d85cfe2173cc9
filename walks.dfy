/** Lists built from the files of a directory walk, one file at a time in
    walk order. The test for a file (`keep`) and the value computed for it
    (`f`) are parameters, so these facts hold whatever the test and the
    value are. */
module Walks {

  /** `f` of every file, in walk order. */
  function MapAll<T>(walk: seq<string>, f: string -> T): seq<T> {
    if |walk| == 0 then []
    else MapAll(walk[..|walk| - 1], f) + [f(walk[|walk| - 1])]
  }

  /** `f` of the files that satisfy `keep`, in walk order. */
  function Select<T>(walk: seq<string>, keep: string -> bool, f: string -> T): seq<T> {
    if |walk| == 0 then []
    else
      var last := walk[|walk| - 1];
      Select(walk[..|walk| - 1], keep, f) + (if keep(last) then [f(last)] else [])
  }

  /** The same values, as a set. */
  function SelectSet<T>(walk: seq<string>, keep: string -> bool, f: string -> T): set<T> {
    if |walk| == 0 then {}
    else
      var last := walk[|walk| - 1];
      SelectSet(walk[..|walk| - 1], keep, f) + (if keep(last) then {f(last)} else {})
  }

  /** One value per file, the `i`th being `f` of the `i`th file. */
  lemma {:induction false} MapAllSpec<T>(walk: seq<string>, f: string -> T)
    ensures |MapAll(walk, f)| == |walk|
    ensures forall i :: 0 <= i < |walk| ==> MapAll(walk, f)[i] == f(walk[i])
  {
    if |walk| > 0 {
      var n := |walk|;
      var init := walk[..n - 1];
      MapAllSpec(init, f);
      var r := MapAll(walk, f);
      assert r == MapAll(init, f) + [f(walk[n - 1])];
      forall i | 0 <= i < n
        ensures r[i] == f(walk[i])
      {
        if i < n - 1 {
          assert r[i] == MapAll(init, f)[i];
          assert init[i] == walk[i];
        }
      }
    }
  }

  /** Taking one more file of the walk appends that file's contribution. */
  lemma Extend<T>(walk: seq<string>, keep: string -> bool, f: string -> T, i: nat)
    requires i < |walk|
    ensures MapAll(walk[..i + 1], f) == MapAll(walk[..i], f) + [f(walk[i])]
    ensures Select(walk[..i + 1], keep, f) == Select(walk[..i], keep, f) + (if keep(walk[i]) then [f(walk[i])] else [])
    ensures SelectSet(walk[..i + 1], keep, f) == SelectSet(walk[..i], keep, f) + (if keep(walk[i]) then {f(walk[i])} else {})
  {
    assert walk[..i + 1][..i] == walk[..i];
  }

  /** Each value of the set comes from a file that satisfies `keep`. */
  lemma {:induction false} SelectSetSource<T>(walk: seq<string>, keep: string -> bool, f: string -> T, v: T)
    returns (i: nat)
    requires v in SelectSet(walk, keep, f)
    ensures i < |walk| && keep(walk[i]) && f(walk[i]) == v
  {
    var n := |walk|;
    var init := walk[..n - 1];
    if v in SelectSet(init, keep, f) {
      i := SelectSetSource(init, keep, f, v);
      assert init[i] == walk[i];
    } else {
      i := n - 1;
    }
  }

  /** Each file that satisfies `keep` contributes its value to the set. */
  lemma {:induction false} SelectSetHas<T>(walk: seq<string>, keep: string -> bool, f: string -> T, i: nat)
    requires i < |walk| && keep(walk[i])
    ensures f(walk[i]) in SelectSet(walk, keep, f)
  {
    var n := |walk|;
    if i < n - 1 {
      var init := walk[..n - 1];
      assert init[i] == walk[i];
      SelectSetHas(init, keep, f, i);
    }
  }

  /** A value is in the set exactly when some file satisfying `keep` has
      it. */
  lemma SelectSetMembers<T>(walk: seq<string>, keep: string -> bool, f: string -> T, v: T)
    ensures v in SelectSet(walk, keep, f) <==> exists i :: 0 <= i < |walk| && keep(walk[i]) && f(walk[i]) == v
  {
    if v in SelectSet(walk, keep, f) {
      var i := SelectSetSource(walk, keep, f, v);
    }
    if exists i :: 0 <= i < |walk| && keep(walk[i]) && f(walk[i]) == v {
      var i :| 0 <= i < |walk| && keep(walk[i]) && f(walk[i]) == v;
      SelectSetHas(walk, keep, f, i);
    }
  }

  /** The list and the set hold the same values. */
  lemma {:induction false} SelectElements<T>(walk: seq<string>, keep: string -> bool, f: string -> T)
    ensures forall v :: v in Select(walk, keep, f) <==> v in SelectSet(walk, keep, f)
  {
    if |walk| > 0 {
      SelectElements(walk[..|walk| - 1], keep, f);
    }
  }
}
