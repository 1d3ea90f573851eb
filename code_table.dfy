/** The lookup every enum of the binding performs in `fromInt`: walk the
    enumerators in declaration order and return the first one whose code matches. */
module CodeTable {
  import opened Outcomes

  /** The codes of the entries of `table` are pairwise distinct. */
  ghost predicate Injective<T>(table: seq<T>, code: T -> int) {
    forall i, j :: 0 <= i < |table| && 0 <= j < |table| && code(table[i]) == code(table[j]) ==> i == j
  }

  /** The first entry of `table` whose code is `v`, or None when no entry has that code. */
  function Find<T>(table: seq<T>, code: T -> int, v: int): (r: Option<T>)
    ensures r.Some? ==> r.value in table && code(r.value) == v
    ensures r.Some? ==> exists i :: 0 <= i < |table| && table[i] == r.value && forall j :: 0 <= j < i ==> code(table[j]) != v
    ensures r.None? ==> forall i :: 0 <= i < |table| ==> code(table[i]) != v
  {
    if table == [] then None
    else if code(table[0]) == v then Some(table[0])
    else
      var rest := Find(table[1..], code, v);
      assert forall i :: 1 <= i < |table| ==> table[i] == table[1..][i - 1];
      assert rest.Some? ==> exists i :: 0 <= i < |table| && table[i] == rest.value &&
                                       forall j :: 0 <= j < i ==> code(table[j]) != v by {
        if rest.Some? {
          var k :| 0 <= k < |table| - 1 && table[1..][k] == rest.value &&
                   forall j :: 0 <= j < k ==> code(table[1..][j]) != v;
          assert table[k + 1] == rest.value;
        }
      }
      rest
  }

  /** With distinct codes, searching for an entry's code finds that very entry. */
  lemma FindsEveryEntry<T>(table: seq<T>, code: T -> int, k: nat)
    requires k < |table|
    requires Injective(table, code)
    ensures Find(table, code, code(table[k])) == Some(table[k])
  {
    var r := Find(table, code, code(table[k]));
    assert r.Some?;
    var j :| 0 <= j < |table| && table[j] == r.value;
    assert code(table[j]) == code(table[k]);
  }

  /** The for-each loop with an early return that `fromInt` runs over `values()`. */
  method Search<T>(table: seq<T>, code: T -> int, v: int) returns (r: Option<T>)
    ensures r == Find(table, code, v)
  {
    var i := 0;
    while i < |table|
      invariant 0 <= i <= |table|
      invariant Find(table[i..], code, v) == Find(table, code, v)
    {
      if code(table[i]) == v {
        return Some(table[i]);
      }
      assert table[i..][1..] == table[i + 1..];
      i := i + 1;
    }
    assert table[i..] == [];
    return None;
  }
}
