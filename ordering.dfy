/**
 * The order in which issues and entries are rendered. An issue's sort key is
 * the pair Python compares: `(int(issue), "")` for a number and
 * `(-1, issue)` otherwise, so non-numeric issues come first (among themselves
 * in string order) and numbers follow by value. An entry's key is the list
 * of its issues' keys, compared as Python compares lists. Sorting is Python's
 * stable `sorted(..., key=...)`, written as an insertion sort.
 */
module Ordering {
  import opened Text

  datatype IssueKey = IssueKey(number: int, text: string)

  /** `issue_key(issue)`. */
  function KeyOf(issue: string): (r: IssueKey)
    ensures r.number >= 0 <==> IsNumeric(issue)
    ensures IsNumeric(issue) ==> r.text == ""
    ensures !IsNumeric(issue) ==> r == IssueKey(-1, issue)
  {
    if IsNumeric(issue) then IssueKey(ParseNat(issue), "") else IssueKey(-1, issue)
  }

  /** Python's `<` on `(int, str)` pairs. */
  predicate KeyLt(a: IssueKey, b: IssueKey) {
    a.number < b.number || (a.number == b.number && StrLt(a.text, b.text))
  }

  /** Python's `<` on lists of keys: lexicographic, a proper prefix first. */
  predicate KeysLt(a: seq<IssueKey>, b: seq<IssueKey>) {
    b != [] && (a == [] || KeyLt(a[0], b[0]) || (a[0] == b[0] && KeysLt(a[1..], b[1..])))
  }

  // ---------------------------------------------------------------------------
  // Both orders are strict total orders

  lemma KeyLtIrreflexive(a: IssueKey)
    ensures !KeyLt(a, a)
  {
    StrLtIrreflexive(a.text);
  }

  lemma KeyLtTransitive(a: IssueKey, b: IssueKey, c: IssueKey)
    requires KeyLt(a, b) && KeyLt(b, c)
    ensures KeyLt(a, c)
  {
    if a.number == b.number == c.number {
      StrLtTransitive(a.text, b.text, c.text);
    }
  }

  lemma KeyLtTotal(a: IssueKey, b: IssueKey)
    ensures a == b || KeyLt(a, b) || KeyLt(b, a)
  {
    StrLtTotal(a.text, b.text);
  }

  lemma {:induction false} KeysLtIrreflexive(a: seq<IssueKey>)
    ensures !KeysLt(a, a)
  {
    if a != [] {
      KeyLtIrreflexive(a[0]);
      KeysLtIrreflexive(a[1..]);
    }
  }

  lemma {:induction false} KeysLtTransitive(a: seq<IssueKey>, b: seq<IssueKey>, c: seq<IssueKey>)
    requires KeysLt(a, b) && KeysLt(b, c)
    ensures KeysLt(a, c)
  {
    if a != [] {
      if KeyLt(a[0], b[0]) && KeyLt(b[0], c[0]) {
        KeyLtTransitive(a[0], b[0], c[0]);
      } else if a[0] == b[0] && b[0] == c[0] {
        KeysLtTransitive(a[1..], b[1..], c[1..]);
      }
    }
  }

  lemma {:induction false} KeysLtTotal(a: seq<IssueKey>, b: seq<IssueKey>)
    ensures a == b || KeysLt(a, b) || KeysLt(b, a)
  {
    if a != [] && b != [] {
      KeyLtTotal(a[0], b[0]);
      if a[0] == b[0] {
        KeysLtTotal(a[1..], b[1..]);
        if a[1..] == b[1..] {
          assert a == [a[0]] + a[1..] && b == [b[0]] + b[1..];
        }
      }
    }
  }

  lemma KeysLtAsymmetric(a: seq<IssueKey>, b: seq<IssueKey>)
    requires KeysLt(a, b)
    ensures !KeysLt(b, a)
  {
    if KeysLt(b, a) {
      KeysLtTransitive(a, b, a);
      KeysLtIrreflexive(a);
    }
  }

  /** "Not after" is transitive: what sorting needs of the order. */
  lemma NotLtTransitive(a: seq<IssueKey>, b: seq<IssueKey>, c: seq<IssueKey>)
    requires !KeysLt(b, a) && !KeysLt(c, b)
    ensures !KeysLt(c, a)
  {
    KeysLtTotal(a, b);
    KeysLtTotal(b, c);
    if KeysLt(a, b) && KeysLt(b, c) {
      KeysLtTransitive(a, b, c);
      KeysLtAsymmetric(a, c);
    } else if KeysLt(a, b) {
      KeysLtAsymmetric(a, b);
    } else if KeysLt(b, c) {
      KeysLtAsymmetric(b, c);
    } else {
      KeysLtIrreflexive(a);
    }
  }

  // ---------------------------------------------------------------------------
  // The issue order, stated independently of the keys

  /**
   * Issue order: a non-numeric issue precedes a numeric one, numbers compare
   * by value (so `9` precedes `142`), other issues by string order.
   */
  lemma IssueOrder(a: string, b: string)
    ensures KeysLt([KeyOf(a)], [KeyOf(b)]) <==>
      || (!IsNumeric(a) && IsNumeric(b))
      || (IsNumeric(a) && IsNumeric(b) && ParseNat(a) < ParseNat(b))
      || (!IsNumeric(a) && !IsNumeric(b) && StrLt(a, b))
  {
    assert [KeyOf(a)][1..] == [] && [KeyOf(b)][1..] == [];
    KeysLtIrreflexive([]);
    StrLtIrreflexive("");
  }

  // ---------------------------------------------------------------------------
  // Stable sorting by a key

  /** No element is strictly before an element that precedes it. */
  ghost predicate SortedBy<T>(s: seq<T>, key: T -> seq<IssueKey>) {
    forall i, j :: 0 <= i < j < |s| ==> !KeysLt(key(s[j]), key(s[i]))
  }

  /** Inserts `x` before the first element that is not strictly before it. */
  function Insert<T>(x: T, s: seq<T>, key: T -> seq<IssueKey>): seq<T> {
    if s == [] || !KeysLt(key(s[0]), key(x)) then [x] + s
    else [s[0]] + Insert(x, s[1..], key)
  }

  lemma {:induction false} InsertSorted<T>(x: T, s: seq<T>, key: T -> seq<IssueKey>)
    requires SortedBy(s, key)
    ensures multiset(Insert(x, s, key)) == multiset(s) + multiset{x}
    ensures SortedBy(Insert(x, s, key), key)
  {
    var r := Insert(x, s, key);
    if s == [] {
    } else if !KeysLt(key(s[0]), key(x)) {
      forall j | 0 < j < |r| ensures !KeysLt(key(r[j]), key(r[0])) {
        KeysLtIrreflexive(key(s[0]));
        NotLtTransitive(key(x), key(s[0]), key(s[j - 1]));
      }
    } else {
      assert s == [s[0]] + s[1..];
      InsertSorted(x, s[1..], key);
      var tail := Insert(x, s[1..], key);
      KeysLtAsymmetric(key(s[0]), key(x));
      forall j | 0 < j < |r| ensures !KeysLt(key(r[j]), key(r[0])) {
        assert r[j] == tail[j - 1];
        assert r[j] in multiset(tail);
        if r[j] != x {
          assert r[j] in multiset(s[1..]);
          var k :| 0 <= k < |s[1..]| && s[1..][k] == r[j];
          assert s[k + 1] == r[j];
        }
      }
    }
  }

  /** `sorted(s, key=key)`: the same elements, ordered by key, ties kept in input order. */
  function SortByKey<T(==)>(s: seq<T>, key: T -> seq<IssueKey>): (r: seq<T>)
    ensures multiset(r) == multiset(s)
    ensures SortedBy(r, key)
  {
    if s == [] then []
    else
      var rest := SortByKey(s[1..], key);
      InsertSorted(s[0], rest, key);
      assert s == [s[0]] + s[1..];
      Insert(s[0], rest, key)
  }

  /** The elements of `s` whose key is `k`, in their order in `s`. */
  function WithKey<T>(s: seq<T>, key: T -> seq<IssueKey>, k: seq<IssueKey>): seq<T> {
    if s == [] then [] else (if key(s[0]) == k then [s[0]] else []) + WithKey(s[1..], key, k)
  }

  /**
   * Inserting `x` passes over only elements strictly before it, so none of
   * them shares its key: among the elements with any one key, `x` lands first.
   */
  lemma {:induction false} InsertKeepsTies<T>(x: T, s: seq<T>, key: T -> seq<IssueKey>, k: seq<IssueKey>)
    ensures WithKey(Insert(x, s, key), key, k) == (if key(x) == k then [x] else []) + WithKey(s, key, k)
  {
    var r := Insert(x, s, key);
    if s == [] || !KeysLt(key(s[0]), key(x)) {
      assert r[0] == x && r[1..] == s;
    } else {
      assert r[0] == s[0] && r[1..] == Insert(x, s[1..], key);
      InsertKeepsTies(x, s[1..], key, k);
      KeysLtIrreflexive(key(x));
    }
  }

  /** Sorting is stable: the elements sharing any one key keep their input order. */
  lemma {:induction false} SortByKeyStable<T>(s: seq<T>, key: T -> seq<IssueKey>, k: seq<IssueKey>)
    ensures WithKey(SortByKey(s, key), key, k) == WithKey(s, key, k)
  {
    if s != [] {
      SortByKeyStable(s[1..], key, k);
      InsertKeepsTies(s[0], SortByKey(s[1..], key), key, k);
    }
  }

  /**
   * When no two elements share a key, there is only one sorted arrangement:
   * the result depends on the elements alone, not on the order they came in.
   */
  lemma {:induction false} SortedUnique<T>(a: seq<T>, b: seq<T>, key: T -> seq<IssueKey>)
    requires multiset(a) == multiset(b)
    requires SortedBy(a, key) && SortedBy(b, key)
    requires forall i, j :: 0 <= i < j < |a| ==> key(a[i]) != key(a[j])
    ensures a == b
  {
    assert |a| == |multiset(a)| == |multiset(b)| == |b|;
    if a != [] {
      SortedHeads(a, b, key);
      MultisetTail(a, b);
      SortedUnique(a[1..], b[1..], key);
      assert a == [a[0]] + a[1..] && b == [b[0]] + b[1..];
    }
  }

  /** Two sorted arrangements of the same elements, with distinct keys, start alike. */
  lemma SortedHeads<T>(a: seq<T>, b: seq<T>, key: T -> seq<IssueKey>)
    requires a != [] && multiset(a) == multiset(b)
    requires SortedBy(a, key) && SortedBy(b, key)
    requires forall i, j :: 0 <= i < j < |a| ==> key(a[i]) != key(a[j])
    ensures b != [] && a[0] == b[0]
  {
    assert a[0] in multiset(b);
    assert b != [];
    assert b[0] in multiset(a);
    var i :| 0 <= i < |b| && b[i] == a[0];
    var j :| 0 <= j < |a| && a[j] == b[0];
    KeysLtIrreflexive(key(a[0]));
    assert !KeysLt(key(a[0]), key(b[0]));
    assert !KeysLt(key(b[0]), key(a[0]));
    KeysLtTotal(key(a[0]), key(b[0]));
  }

  lemma MultisetTail<T>(a: seq<T>, b: seq<T>)
    requires a != [] && b != [] && a[0] == b[0] && multiset(a) == multiset(b)
    ensures multiset(a[1..]) == multiset(b[1..])
  {
    assert a == [a[0]] + a[1..] && b == [b[0]] + b[1..];
    assert multiset(a[1..]) == multiset(a) - multiset{a[0]};
    assert multiset(b[1..]) == multiset(b) - multiset{a[0]};
  }

  function IssueSortKey(issue: string): seq<IssueKey> {
    [KeyOf(issue)]
  }

  /** The issues of an entry in rendering order. */
  function SortIssues(issues: seq<string>): (r: seq<string>)
    ensures multiset(r) == multiset(issues)
    ensures SortedBy(r, IssueSortKey)
  {
    SortByKey(issues, IssueSortKey)
  }

  /** Issues with equal keys (such as `1` and `01`) keep their input order. */
  lemma SortIssuesStable(issues: seq<string>, k: seq<IssueKey>)
    ensures WithKey(SortIssues(issues), IssueSortKey, k) == WithKey(issues, IssueSortKey, k)
  {
    SortByKeyStable(issues, IssueSortKey, k);
  }

  /** A sorted arrangement of the issues with pairwise distinct keys is the one `SortIssues` produces. */
  lemma SortIssuesDetermined(issues: seq<string>, sorted: seq<string>)
    requires multiset(sorted) == multiset(issues) && SortedBy(sorted, IssueSortKey)
    requires forall i, j :: 0 <= i < j < |sorted| ==> IssueSortKey(sorted[i]) != IssueSortKey(sorted[j])
    ensures SortIssues(issues) == sorted
  {
    SortedUnique(sorted, SortIssues(issues), IssueSortKey);
  }

  /**
   * In a sorted issue list every non-numeric issue precedes every numeric
   * one, and the numeric ones ascend by value.
   */
  lemma SortedIssuesLayout(issues: seq<string>, i: int, j: int)
    requires 0 <= i < j < |SortIssues(issues)|
    ensures var r := SortIssues(issues);
      && (IsNumeric(r[i]) ==> IsNumeric(r[j]))
      && (IsNumeric(r[i]) ==> ParseNat(r[i]) <= ParseNat(r[j]))
  {
    var r := SortIssues(issues);
    IssueOrder(r[j], r[i]);
  }
}
