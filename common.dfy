/** Small shared vocabulary: an optional value and the JavaScript number helpers
    (`Math.round`, `Math.floor`, `Math.min`, the `x || 0` idiom) the application
    uses throughout, stated over unbounded reals. */
module Common {

  datatype Option<+T> = None | Some(value: T) {
    function GetOr(default: T): T {
      match this
      case Some(v) => v
      case None => default
    }
  }

  /** `Math.floor(x)`. */
  function Floor(x: real): (r: int)
    ensures r as real <= x < r as real + 1.0
  {
    x.Floor
  }

  /** `Math.round(x)`: JavaScript rounds halves towards +infinity, i.e. floor(x + 0.5). */
  function Round(x: real): (r: int)
    ensures x - 0.5 < r as real <= x + 0.5
  {
    (x + 0.5).Floor
  }

  /** `Math.min(a, b)`. */
  function Min(a: real, b: real): (r: real)
    ensures r <= a && r <= b
    ensures r == a || r == b
  {
    if a <= b then a else b
  }

  /** `x || 0` for a number that may be missing: the result is 0 exactly when the
      number is missing or 0 (both falsy), and any other result is the number given. */
  function OrZero(x: Option<real>): (r: real)
    ensures r == 0.0 <==> x.None? || x == Some(0.0)
    ensures r != 0.0 ==> x == Some(r)
  {
    if x.Some? then x.value else 0.0
  }

  const DefaultUser: string := "default-user"

  /** `userId || "default-user"`, the user both API routes read a request for: a
      missing or empty id means the default user. */
  function UserOrDefault(userId: Option<string>): (r: string)
    ensures r != ""
    ensures userId.None? || userId == Some("") ==> r == DefaultUser
    ensures userId.Some? && userId.value != "" ==> r == userId.value
  {
    if userId.None? || userId == Some("") then DefaultUser else userId.value
  }

  /** The number a four-digit decimal stock code stands for (a string of any other
      length gives -1). Codes of this form are integer-like property names, which
      `Object.values` lists in ascending numeric order. */
  function CodeValue(id: string): int {
    if |id| == 4 then
      (((id[0] as int - '0' as int) * 10 + (id[1] as int - '0' as int)) * 10 +
       (id[2] as int - '0' as int)) * 10 + (id[3] as int - '0' as int)
    else -1
  }

  /** Codes whose values grow from each to the next grow along the whole list. */
  lemma {:induction false} CodesAscending(ids: seq<string>)
    requires forall k :: 0 <= k < |ids| - 1 ==> CodeValue(ids[k]) < CodeValue(ids[k + 1])
    ensures forall i, j :: 0 <= i < j < |ids| ==> CodeValue(ids[i]) < CodeValue(ids[j])
  {
    if |ids| > 1 {
      var rest := ids[1..];
      CodesAscending(rest);
      forall i, j | 0 <= i < j < |ids| ensures CodeValue(ids[i]) < CodeValue(ids[j]) {
        if i > 0 {
          assert ids[i] == rest[i - 1] && ids[j] == rest[j - 1];
        } else if j > 1 {
          assert ids[1] == rest[0] && ids[j] == rest[j - 1];
        }
      }
    }
  }

  /** Rounding is monotone: a larger argument never rounds lower. */
  lemma RoundMonotone(x: real, y: real)
    requires x <= y
    ensures Round(x) <= Round(y)
  {
  }

  /** Rounding an integer gives it back. */
  lemma RoundOfInt(n: int)
    ensures Round(n as real) == n
  {
  }

  /** Rounding stays inside integer bounds that enclose its argument. */
  lemma RoundWithin(x: real, lo: int, hi: int)
    requires lo as real <= x <= hi as real
    ensures lo <= Round(x) <= hi
  {
    RoundMonotone(lo as real, x);
    RoundMonotone(x, hi as real);
    RoundOfInt(lo);
    RoundOfInt(hi);
  }

  // ----- a stable insertion sort and the per-key view used to state stability -----

  predicate SortedBy<T>(s: seq<T>, key: T -> int) {
    forall i, j :: 0 <= i < j < |s| ==> key(s[i]) <= key(s[j])
  }

  /** Places x after every element whose key is at most x's. */
  function Insert<T>(t: seq<T>, x: T, key: T -> int): seq<T> {
    if |t| == 0 then [x]
    else if key(t[|t| - 1]) <= key(x) then t + [x]
    else Insert(t[..|t| - 1], x, key) + [t[|t| - 1]]
  }

  /** `[...s].sort((a, b) => key(a) - key(b))`, stable as the language requires. */
  function SortBy<T>(s: seq<T>, key: T -> int): seq<T> {
    if |s| == 0 then []
    else Insert(SortBy(s[..|s| - 1], key), s[|s| - 1], key)
  }

  /** The elements of s with key k, in order. */
  function KeyFilter<T>(s: seq<T>, key: T -> int, k: int): seq<T> {
    if |s| == 0 then []
    else KeyFilter(s[..|s| - 1], key, k) + (if key(s[|s| - 1]) == k then [s[|s| - 1]] else [])
  }

  lemma {:induction false} KeyFilterAppend<T>(a: seq<T>, b: seq<T>, key: T -> int, k: int)
    ensures KeyFilter(a + b, key, k) == KeyFilter(a, key, k) + KeyFilter(b, key, k)
    decreases |b|
  {
    if |b| == 0 {
      assert a + b == a;
    } else {
      assert (a + b)[..|a + b| - 1] == a + b[..|b| - 1];
      KeyFilterAppend(a, b[..|b| - 1], key, k);
    }
  }

  lemma {:induction false} KeyFilterMembers<T>(s: seq<T>, key: T -> int, k: int)
    ensures forall x :: x in KeyFilter(s, key, k) <==> x in s && key(x) == k
  {
    if |s| > 0 {
      KeyFilterMembers(s[..|s| - 1], key, k);
      assert s == s[..|s| - 1] + [s[|s| - 1]];
    }
  }

  /** A non-empty key filter witnesses an element with that key. */
  lemma KeyFilterNonEmpty<T>(s: seq<T>, key: T -> int, k: int)
    requires KeyFilter(s, key, k) != []
    ensures exists x :: x in s && key(x) == k
  {
    KeyFilterMembers(s, key, k);
    assert KeyFilter(s, key, k)[0] in KeyFilter(s, key, k);
  }

  lemma {:induction false} InsertPerm<T>(t: seq<T>, x: T, key: T -> int)
    ensures multiset(Insert(t, x, key)) == multiset(t) + multiset{x}
  {
    if |t| > 0 && key(t[|t| - 1]) > key(x) {
      InsertPerm(t[..|t| - 1], x, key);
      assert t == t[..|t| - 1] + [t[|t| - 1]];
    }
  }

  lemma {:induction false} InsertSorted<T>(t: seq<T>, x: T, key: T -> int)
    requires SortedBy(t, key)
    ensures SortedBy(Insert(t, x, key), key)
  {
    if |t| > 0 && key(t[|t| - 1]) > key(x) {
      var init := t[..|t| - 1];
      var last := t[|t| - 1];
      InsertSorted(init, x, key);
      InsertPerm(init, x, key);
      var r := Insert(init, x, key);
      forall i | 0 <= i < |r| ensures key(r[i]) <= key(last) {
        assert r[i] in multiset(r);
        if r[i] != x {
          assert r[i] in multiset(init);
          var j :| 0 <= j < |init| && init[j] == r[i];
          assert key(t[j]) <= key(t[|t| - 1]);
        }
      }
      assert Insert(t, x, key) == r + [last];
    }
  }

  lemma {:induction false} SortBySorted<T>(s: seq<T>, key: T -> int)
    ensures SortedBy(SortBy(s, key), key)
    ensures multiset(SortBy(s, key)) == multiset(s)
  {
    if |s| > 0 {
      SortBySorted(s[..|s| - 1], key);
      InsertSorted(SortBy(s[..|s| - 1], key), s[|s| - 1], key);
      InsertPerm(SortBy(s[..|s| - 1], key), s[|s| - 1], key);
      assert s == s[..|s| - 1] + [s[|s| - 1]];
    }
  }

  /** Insertion keeps every key's elements in their order, x last among its key. */
  lemma {:induction false} InsertStable<T>(t: seq<T>, x: T, key: T -> int, k: int)
    ensures KeyFilter(Insert(t, x, key), key, k) == KeyFilter(t, key, k) + KeyFilter([x], key, k)
  {
    if |t| == 0 {
      assert Insert(t, x, key) == [x];
    } else if key(t[|t| - 1]) <= key(x) {
      KeyFilterAppend(t, [x], key, k);
    } else {
      var init := t[..|t| - 1];
      var last := t[|t| - 1];
      InsertStable(init, x, key, k);
      KeyFilterAppend(Insert(init, x, key), [last], key, k);
      assert t == init + [last];
      KeyFilterAppend(init, [last], key, k);
    }
  }

  /** The sort is stable: for every key, the elements with that key keep their order. */
  lemma {:induction false} SortByStable<T>(s: seq<T>, key: T -> int, k: int)
    ensures KeyFilter(SortBy(s, key), key, k) == KeyFilter(s, key, k)
  {
    if |s| > 0 {
      var init := s[..|s| - 1];
      SortByStable(init, key, k);
      InsertStable(SortBy(init, key), s[|s| - 1], key, k);
      assert s == init + [s[|s| - 1]];
      KeyFilterAppend(init, [s[|s| - 1]], key, k);
    }
  }
}
