/**
 * Model of src/napari_deeplabcut/misc.py: first-seen de-duplication and
 * category encoding, separator rewriting for paths, the cycling enumeration
 * metaclass, and the mutable closed integer interval `InclusiveInterval`.
 */
module Misc {
  import opened Wrappers

  // ---------------------------------------------------------------------
  // Sequence helpers
  // ---------------------------------------------------------------------

  predicate Distinct<T(==)>(s: seq<T>) {
    forall i, j :: 0 <= i < j < |s| ==> s[i] != s[j]
  }

  /** Python's `list.index`: the position of the first occurrence of `x`. */
  function FirstIndex<T(==)>(s: seq<T>, x: T): (i: nat)
    requires x in s
    ensures i < |s| && s[i] == x
    ensures forall k :: 0 <= k < i ==> s[k] != x
  {
    if s[0] == x then 0 else 1 + FirstIndex(s[1..], x)
  }

  lemma FirstIndexOfDistinct<T>(s: seq<T>, k: nat)
    requires Distinct(s) && k < |s|
    ensures FirstIndex(s, s[k]) == k
  {
  }

  /** Extending a sequence at the end does not move first occurrences. */
  lemma FirstIndexOfExtension<T>(p: seq<T>, q: seq<T>, x: T)
    requires x in p
    ensures FirstIndex(p + q, x) == FirstIndex(p, x)
  {
    var i, j := FirstIndex(p + q, x), FirstIndex(p, x);
    assert (p + q)[j] == x;
  }

  // ---------------------------------------------------------------------
  // unsorted_unique and encode_categories
  // ---------------------------------------------------------------------

  /**
   * The distinct elements of `s` in order of first occurrence (numpy's
   * `unique(..., return_index=True)` followed by sorting the indices).
   */
  function UnsortedUnique<T(==)>(s: seq<T>): (u: seq<T>)
    ensures Distinct(u)
    ensures forall i :: 0 <= i < |s| ==> s[i] in u
    ensures forall k :: 0 <= k < |u| ==> u[k] in s
    ensures |u| <= |s|
  {
    if s == [] then []
    else
      var init, last := s[..|s| - 1], s[|s| - 1];
      assert s == init + [last];
      var u := UnsortedUnique(init);
      if last in u then u else u + [last]
  }

  /** The elements of `UnsortedUnique(s)` appear in the order in which `s` first shows them. */
  lemma {:induction false} UnsortedUniqueKeepsFirstSeenOrder<T>(s: seq<T>)
    ensures forall i, j :: 0 <= i < j < |UnsortedUnique(s)| ==>
              FirstIndex(s, UnsortedUnique(s)[i]) < FirstIndex(s, UnsortedUnique(s)[j])
  {
    if s != [] {
      var init, last := s[..|s| - 1], s[|s| - 1];
      assert s == init + [last];
      UnsortedUniqueKeepsFirstSeenOrder(init);
      var u0 := UnsortedUnique(init);
      var u := UnsortedUnique(s);
      forall y | y in u0
        ensures FirstIndex(s, y) == FirstIndex(init, y) < |init|
      {
        FirstIndexOfExtension(init, [last], y);
      }
      if last !in u0 {
        assert u == u0 + [last];
        var f := FirstIndex(s, last);
        assert forall k :: 0 <= k < |init| ==> s[k] == init[k];
        assert f == |init|;
        forall i, j | 0 <= i < j < |u|
          ensures FirstIndex(s, u[i]) < FirstIndex(s, u[j])
        {
          assert u[i] in u0;
          if j < |u0| {
            assert u[j] in u0;
          }
        }
      }
    }
  }

  /** The result of `encode_categories`: the indices and, when asked for, the value-to-index map. */
  datatype Encoding<T> = Encoding(inds: seq<nat>, mapping: Option<map<T, nat>>)

  /** `dict(zip(unique_cat, range(len(unique_cat))))` */
  function CategoryMap<T(==)>(u: seq<T>): (m: map<T, nat>)
    requires Distinct(u)
    ensures m.Keys == set k | 0 <= k < |u| :: u[k]
    ensures forall k :: 0 <= k < |u| ==> m[u[k]] == k
  {
    map x | x in u :: FirstIndex(u, x)
  }

  /**
   * Each category is replaced by the index of its first-seen value.
   * numpy's `vectorize` refuses an empty input with ValueError.
   */
  function EncodeCategories<T(==)>(categories: seq<T>, returnMap: bool): (r: Result<Encoding<T>>)
    ensures r.Failure? <==> |categories| == 0
    ensures r.Failure? ==> r.error == ValueError
    ensures r.Success? ==>
              var u := UnsortedUnique(categories);
              && |r.value.inds| == |categories|
              && (forall i :: 0 <= i < |categories| ==>
                    r.value.inds[i] < |u| && u[r.value.inds[i]] == categories[i])
              && (r.value.mapping.Some? <==> returnMap)
              && (returnMap ==>
                    (r.value.mapping.value.Keys == set i | 0 <= i < |categories| :: categories[i]) &&
                    (forall k :: 0 <= k < |u| ==> r.value.mapping.value[u[k]] == k))
  {
    if |categories| == 0 then Failure(ValueError)
    else
      var u := UnsortedUnique(categories);
      var m := CategoryMap(u);
      var inds := seq(|categories|, i requires 0 <= i < |categories| => m[categories[i]]);
      Success(Encoding(inds, if returnMap then Some(m) else None))
  }

  // ---------------------------------------------------------------------
  // to_os_dir_sep
  // ---------------------------------------------------------------------

  const WinSep: char := '\\'
  const UnixSep: char := '/'

  /** Python's `str.split(sep)`: never empty, and empty pieces are kept. */
  function Split(s: string, sep: char): (parts: seq<string>)
    ensures |parts| >= 1
    ensures forall k :: 0 <= k < |parts| ==> sep !in parts[k]
    ensures forall k, d :: 0 <= k < |parts| && d in parts[k] ==> d in s
  {
    if s == [] then [""]
    else
      var rest := Split(s[1..], sep);
      assert forall d :: d in s[1..] ==> d in s;
      if s[0] == sep then [""] + rest
      else
        var first := [s[0]] + rest[0];
        assert forall d :: d in first ==> d == s[0] || d in rest[0];
        [first] + rest[1..]
  }

  /** Python's `sep.join(parts)`. */
  function Join(parts: seq<string>, sep: char): string
  {
    if |parts| == 0 then ""
    else if |parts| == 1 then parts[0]
    else parts[0] + [sep] + Join(parts[1..], sep)
  }

  lemma {:induction false} JoinOfSplit(s: string, sep: char)
    ensures Join(Split(s, sep), sep) == s
  {
    if s != [] {
      var rest := Split(s[1..], sep);
      JoinOfSplit(s[1..], sep);
      if s[0] != sep && |rest| > 1 {
        assert Join(rest, sep) == rest[0] + [sep] + Join(rest[1..], sep);
        assert Split(s, sep)[1..] == rest[1..];
      }
    }
  }

  lemma {:induction false} SplitWithoutSep(s: string, sep: char)
    requires sep !in s
    ensures Split(s, sep) == [s]
  {
    if s != [] {
      SplitWithoutSep(s[1..], sep);
      assert [s[0]] + s[1..] == s;
    }
  }

  lemma {:induction false} SplitAfterPiece(p: string, t: string, sep: char)
    requires sep !in p
    ensures Split(p + [sep] + t, sep) == [p] + Split(t, sep)
  {
    if p == [] {
      assert p + [sep] + t == [sep] + t;
      assert ([sep] + t)[1..] == t;
    } else {
      var s := p + [sep] + t;
      assert s[1..] == p[1..] + [sep] + t;
      SplitAfterPiece(p[1..], t, sep);
      assert [p[0]] + p[1..] == p;
    }
  }

  lemma {:induction false} SplitOfJoin(parts: seq<string>, sep: char)
    requires |parts| >= 1
    requires forall k :: 0 <= k < |parts| ==> sep !in parts[k]
    ensures Split(Join(parts, sep), sep) == parts
  {
    if |parts| == 1 {
      SplitWithoutSep(parts[0], sep);
    } else {
      SplitOfJoin(parts[1..], sep);
      SplitAfterPiece(parts[0], Join(parts[1..], sep), sep);
      assert [parts[0]] + parts[1..] == parts;
    }
  }

  /** Joining adds no characters except the separator. */
  lemma {:induction false} JoinAddsOnlySep(parts: seq<string>, sep: char, d: char)
    requires d != sep
    requires forall k :: 0 <= k < |parts| ==> d !in parts[k]
    ensures d !in Join(parts, sep)
  {
    if |parts| > 1 {
      JoinAddsOnlySep(parts[1..], sep, d);
    }
  }

  /** The separator `to_os_dir_sep` splits on: `\` when the path holds one, else `/`. */
  function PathSep(path: string): char {
    if WinSep in path then WinSep else UnixSep
  }

  /**
   * Rewrites every directory separator of `path` to `osSep` (the platform's
   * `os.path.sep`, a parameter here). A path that mixes `\` and `/` is refused.
   */
  function ToOsDirSep(path: string, osSep: char): (r: Result<string>)
    ensures r.Failure? <==> WinSep in path && UnixSep in path
    ensures r.Failure? ==> r.error == ValueError
  {
    if WinSep in path && UnixSep in path then Failure(ValueError)
    else Success(Join(Split(path, PathSep(path)), osSep))
  }

  /**
   * On success the result, split at the platform separator, has exactly the
   * segments of the input split at its own separator.
   */
  lemma ToOsDirSepKeepsSegments(path: string, osSep: char)
    requires osSep == WinSep || osSep == UnixSep
    requires ToOsDirSep(path, osSep).Success?
    ensures Split(ToOsDirSep(path, osSep).value, osSep) == Split(path, PathSep(path))
  {
    var parts := Split(path, PathSep(path));
    forall k | 0 <= k < |parts|
      ensures osSep !in parts[k]
    {
      if osSep != PathSep(path) {
        assert osSep !in path;
      }
    }
    SplitOfJoin(parts, osSep);
  }

  /** A second application changes nothing. */
  lemma ToOsDirSepIdempotent(path: string, osSep: char)
    requires osSep == WinSep || osSep == UnixSep
    requires ToOsDirSep(path, osSep).Success?
    ensures ToOsDirSep(ToOsDirSep(path, osSep).value, osSep) == ToOsDirSep(path, osSep)
  {
    var parts := Split(path, PathSep(path));
    var r := Join(parts, osSep);
    forall k | 0 <= k < |parts|
      ensures WinSep !in parts[k] && UnixSep !in parts[k]
    {
      if PathSep(path) == WinSep {
        assert UnixSep !in path;
      } else {
        assert WinSep !in path;
      }
    }
    var other := if osSep == WinSep then UnixSep else WinSep;
    JoinAddsOnlySep(parts, osSep, other);
    var sep2 := PathSep(r);
    if sep2 in r {
      assert sep2 == osSep;
      SplitOfJoin(parts, osSep);
    } else {
      SplitWithoutSep(r, sep2);
    }
  }

  // ---------------------------------------------------------------------
  // CycleEnumMeta and CycleEnum
  // ---------------------------------------------------------------------

  /** ASCII case mapping; Python's `str.upper`/`str.lower` restricted to ASCII. */
  function UpperChar(c: char): char {
    if 'a' <= c <= 'z' then (c as int - 32) as char else c
  }

  function LowerChar(c: char): char {
    if 'A' <= c <= 'Z' then (c as int + 32) as char else c
  }

  function Upper(s: string): string {
    seq(|s|, i requires 0 <= i < |s| => UpperChar(s[i]))
  }

  function Lower(s: string): string {
    seq(|s|, i requires 0 <= i < |s| => LowerChar(s[i]))
  }

  /** `_generate_next_value_`: a member's value is its lower-cased name. */
  function CycleEnumValue(name: string): (v: string)
    ensures |v| == |name|
    ensures Upper(v) == Upper(name)
    ensures forall i :: 0 <= i < |v| ==> !('A' <= v[i] <= 'Z')
    ensures Upper(name) == name ==> Upper(v) == name
  {
    Lower(name)
  }

  /**
   * The value is determined by the name: the only text without upper-case
   * letters that upper-cases to the same text as `name` is its lower-casing.
   */
  lemma CycleEnumValueIsUnique(name: string, v: string)
    requires Upper(v) == Upper(name)
    requires forall i :: 0 <= i < |v| ==> !('A' <= v[i] <= 'Z')
    ensures v == CycleEnumValue(name)
  {
    var w := CycleEnumValue(name);
    assert |v| == |Upper(v)| == |Upper(name)| == |w|;
    forall i | 0 <= i < |v|
      ensures v[i] == w[i]
    {
      assert Upper(v)[i] == Upper(name)[i];
      assert UpperChar(v[i]) == UpperChar(name[i]);
    }
  }

  /**
   * `CycleEnumMeta.__getitem__` for a string: the key is upper-cased and
   * then looked up among the member names; a missing name raises KeyError.
   */
  function CycleEnumGetItem(names: seq<string>, item: string): (r: Result<nat>)
    ensures r.Success? <==> Upper(item) in names
    ensures r.Failure? ==> r.error == KeyError
    ensures r.Success? ==> r.value < |names| && names[r.value] == Upper(item)
  {
    if Upper(item) in names then Success(FirstIndex(names, Upper(item))) else Failure(KeyError)
  }

  /**
   * Lookup is case-insensitive: for upper-case member names, any spelling
   * whose upper-casing is the name (the name itself, the member's value)
   * finds that member.
   */
  lemma CycleEnumGetItemIgnoresCase(names: seq<string>, k: nat, item: string)
    requires Distinct(names) && k < |names|
    requires Upper(names[k]) == names[k]
    requires Upper(item) == names[k]
    ensures CycleEnumGetItem(names, item) == Success(k)
    ensures CycleEnumGetItem(names, CycleEnumValue(names[k])) == Success(k)
    ensures CycleEnumGetItem(names, names[k]) == Success(k)
  {
    FirstIndexOfDistinct(names, k);
  }

  /** One step of the endless cycle over `n` members. */
  function Succ(i: int, n: int): (j: int)
    requires n > 0
    ensures 0 <= j < n
  {
    (i + 1) % n
  }

  /** Below the last member a step simply counts up. */
  lemma SuccBelowLast(i: int, n: int)
    requires 0 <= i && i + 1 < n
    ensures Succ(i, n) == i + 1
  {
  }

  /** The cursor position after `k` steps from `i`. */
  function AfterSteps(i: int, k: nat, n: int): (j: int)
    requires n > 0
  {
    if k == 0 then i else Succ(AfterSteps(i, k - 1, n), n)
  }

  /** Before the last member is reached the cursor simply counts up. */
  lemma {:induction false} AfterStepsCountsUp(i: int, k: nat, n: int)
    requires n > 0 && 0 <= i && i + k < n
    ensures AfterSteps(i, k, n) == i + k
  {
    if k > 0 {
      AfterStepsCountsUp(i, k - 1, n);
      SuccBelowLast(i + k - 1, n);
    }
  }

  lemma {:induction false} AfterStepsCompose(i: int, a: nat, b: nat, n: int)
    requires n > 0
    ensures AfterSteps(i, a + b, n) == AfterSteps(AfterSteps(i, a, n), b, n)
  {
    if b > 0 {
      AfterStepsCompose(i, a, b - 1, n);
    }
  }

  /** `n` steps bring the cursor back to where it was. */
  lemma AfterStepsFullTurn(i: int, n: int)
    requires n > 0 && 0 <= i < n
    ensures AfterSteps(i, n, n) == i
  {
    assert AfterSteps(n - 1, 0, n) == n - 1;
    assert AfterSteps(n - 1, 1, n) == 0;
    AfterStepsCountsUp(0, i, n);
    AfterStepsCountsUp(i, n - 1 - i, n);
    AfterStepsCompose(i, n - 1 - i, 1 + i, n);
    AfterStepsCompose(n - 1, 1, i, n);
  }

  /**
   * The cycle visits the members in declaration order, wraps from the last
   * to the first, and never ends: it repeats with period `n`.
   */
  lemma CycleWrapsAround(i: int, k: nat, n: int)
    requires n > 0 && 0 <= i < n
    ensures AfterSteps(0, i, n) == i
    ensures AfterSteps(n - 1, 1, n) == 0
    ensures AfterSteps(i, k + n, n) == AfterSteps(i, k, n)
  {
    AfterStepsCountsUp(0, i, n);
    assert AfterSteps(n - 1, 0, n) == n - 1;
    AfterStepsCompose(i, k, n, n);
    AfterStepsFullTurn(AfterSteps(i, k, n), n);
  }

  /**
   * The class-level iterator that `CycleEnumMeta` builds over the members
   * in declaration order; `iter` and `next` on the enumeration share it.
   */
  class CycleEnumIterator<T> {
    const members: seq<T>
    var position: nat

    ghost predicate Valid()
      reads this
    {
      if |members| == 0 then position == 0 else position < |members|
    }

    constructor (members: seq<T>)
      ensures Valid() && this.members == members && position == 0
    {
      this.members := members;
      position := 0;
    }

    /** `next(cls)`: the member under the cursor; an enumeration without members raises StopIteration. */
    method Next() returns (m: Result<T>)
      requires Valid()
      modifies this
      ensures Valid()
      ensures |members| == 0 ==> m == Failure(StopIteration) && position == old(position)
      ensures |members| > 0 ==>
                m == Success(members[old(position)]) && position == Succ(old(position), |members|)
    {
      if |members| == 0 {
        return Failure(StopIteration);
      }
      m := Success(members[position]);
      position := (position + 1) % |members|;
    }
  }

  // ---------------------------------------------------------------------
  // InclusiveInterval
  // ---------------------------------------------------------------------

  /** The value of an interval: the closed range [lo, hi]. */
  datatype Bounds = Bounds(lo: int, hi: int) {
    predicate Valid() { lo <= hi }
    predicate Has(x: int) { lo <= x <= hi }
    predicate Covers(b: Bounds) { lo <= b.lo && b.hi <= hi }
  }

  /** The smallest range covering both arguments: what `normalize` computes. */
  function Hull(a: Bounds, b: Bounds): (h: Bounds)
    ensures h.Covers(a) && h.Covers(b)
    ensures forall c: Bounds :: c.Covers(a) && c.Covers(b) ==> c.Covers(h)
    ensures a.Covers(b) ==> h == a
    ensures b.Covers(a) ==> h == b
  {
    Bounds(if a.lo <= b.lo then a.lo else b.lo, if a.hi >= b.hi then a.hi else b.hi)
  }

  /** Interval containment is containment of every point. */
  lemma CoversIffEveryPoint(a: Bounds, b: Bounds)
    requires b.Valid()
    ensures a.Covers(b) <==> forall x :: b.Has(x) ==> a.Has(x)
  {
    if forall x :: b.Has(x) ==> a.Has(x) {
      assert b.Has(b.lo) && b.Has(b.hi);
    }
  }

  /** A closed integer range that refuses any change making `min > max`. */
  class InclusiveInterval {
    var min: int
    var max: int

    ghost predicate Valid()
      reads this
    {
      min <= max
    }

    function Value(): Bounds
      reads this
    {
      Bounds(min, max)
    }

    /** The field initialisation `self._min = self._max = 0`. */
    constructor Zero()
      ensures Valid() && Value() == Bounds(0, 0)
    {
      min, max := 0, 0;
    }

    /** `InclusiveInterval(min_, max_)`: raises ValueError when `min_ > max_`. */
    static method New(lo: int, hi: int) returns (r: Result<InclusiveInterval>)
      ensures r.Success? <==> lo <= hi
      ensures r.Failure? ==> r.error == ValueError
      ensures r.Success? ==> fresh(r.value) && r.value.Valid() && r.value.Value() == Bounds(lo, hi)
    {
      var i := new InclusiveInterval.Zero();
      var o := i.Set(lo, hi);
      if o.Fail? {
        return Failure(o.error);
      }
      return Success(i);
    }

    /** Replaces both bounds together, or neither when `lo > hi`. */
    method Set(lo: int, hi: int) returns (r: Outcome)
      requires Valid()
      modifies this
      ensures Valid()
      ensures r == if lo <= hi then Pass else Fail(ValueError)
      ensures Value() == if lo <= hi then Bounds(lo, hi) else old(Value())
    {
      if lo > hi {
        return Fail(ValueError);
      }
      min := lo;
      max := hi;
      return Pass;
    }

    /** The `min` setter: refuses a value above `max`. */
    method SetMin(v: int) returns (r: Outcome)
      requires Valid()
      modifies this
      ensures Valid()
      ensures r == if v <= old(max) then Pass else Fail(ValueError)
      ensures Value() == if v <= old(max) then Bounds(v, old(max)) else old(Value())
    {
      if v > max {
        return Fail(ValueError);
      }
      min := v;
      return Pass;
    }

    /** The `max` setter: refuses a value below `min`. */
    method SetMax(v: int) returns (r: Outcome)
      requires Valid()
      modifies this
      ensures Valid()
      ensures r == if v >= old(min) then Pass else Fail(ValueError)
      ensures Value() == if v >= old(min) then Bounds(old(min), v) else old(Value())
    {
      if v < min {
        return Fail(ValueError);
      }
      max := v;
      return Pass;
    }

    /** A detached instance with the same bounds. */
    method Copy() returns (c: InclusiveInterval)
      requires Valid()
      ensures fresh(c) && c.Valid() && c.Value() == Value()
    {
      var r := New(min, max);
      c := r.value;
    }

    /**
     * `normalize(min_, max_)` with two numbers: widens this interval to the
     * hull of itself and [lo, hi]. A missing `max_` or `lo > hi` raises.
     */
    method NormalizeTo(lo: int, hi: Option<int>) returns (r: Outcome)
      requires Valid()
      modifies this
      ensures Valid()
      ensures hi.None? ==> r == Fail(ValueError) && Value() == old(Value())
      ensures hi.Some? && lo > hi.value ==> r == Fail(ValueError) && Value() == old(Value())
      ensures hi.Some? && lo <= hi.value ==>
                r == Pass && Value() == Hull(old(Value()), Bounds(lo, hi.value))
    {
      if hi.None? {
        return Fail(ValueError);
      }
      if lo > hi.value {
        return Fail(ValueError);
      }
      if max < hi.value {
        var o := SetMax(hi.value);
        assert o == Pass;
      }
      if min > lo {
        var o := SetMin(lo);
        assert o == Pass;
      }
      return Pass;
    }

    /** `normalize(other)` with an interval: never raises. */
    method Normalize(other: InclusiveInterval)
      requires Valid() && other.Valid()
      modifies this
      ensures Valid()
      ensures Value() == Hull(old(Value()), old(other.Value()))
    {
      var r := NormalizeTo(other.min, Some(other.max));
    }

    /** `contains` of a number. */
    function Contains(x: int): (b: bool)
      reads this
      ensures b <==> Value().Has(x)
    {
      min <= x <= max
    }

    /** `contains` of an interval. */
    function ContainsInterval(other: InclusiveInterval): (b: bool)
      reads this, other
      ensures b <==> Value().Covers(other.Value())
    {
      min <= other.min && other.max <= max
    }

    /** `contains` agrees with containment of points, for a number and for an interval. */
    lemma ContainsMeansMembership(other: InclusiveInterval)
      requires other.Valid()
      ensures forall x :: Contains(x) <==> Value().Has(x)
      ensures ContainsInterval(other) <==> forall x :: other.Contains(x) ==> Contains(x)
    {
      CoversIffEveryPoint(Value(), other.Value());
    }

    /** `__eq__` between intervals: structural. */
    function Equals(other: InclusiveInterval): (r: bool)
      reads this, other
      ensures r <==> Value() == other.Value()
    {
      min == other.min && max == other.max
    }

    /** `__getitem__`: index 0 is `min`, 1 is `max`, anything else raises IndexError. */
    function GetItem(i: int): (r: Result<int>)
      reads this
      ensures r.Success? <==> i == 0 || i == 1
      ensures r.Failure? ==> r.error == IndexError
      ensures r.Success? ==> r.value == (if i == 0 then min else max)
    {
      if i == 0 then Success(min)
      else if i == 1 then Success(max)
      else Failure(IndexError)
    }
  }

  /** A copy is equal to its original, and changing the copy leaves the original alone. */
  method CopyIsDetached(i: InclusiveInterval)
    requires i.Valid()
    modifies i
  {
    var before := i.Value();
    var c := i.Copy();
    assert c.Equals(i);
    var o := c.SetMin(c.min - 1);
    assert i.Value() == before;
    o := i.Set(i.max, i.max);
    assert c.min == before.lo - 1;
  }
}
