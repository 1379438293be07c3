/**
 * The values that the generic sort reads off an entity and the comparator it
 * hands to `Array.prototype.sort`
 * (src/shared/infra/db/in-memory/in-memory-repository.ts:95-109).
 */
module SortKeys {

  /**
   * The value of one sortable field. Each field has a single kind: strings
   * compare as JavaScript compares two strings, dates by their time value.
   */
  datatype Key = Text(chars: string) | Instant(millis: int)

  /** The `sort_dir` of a search: anything but "asc" sorts descending. */
  datatype SortDirection = Asc | Desc

  /** JavaScript's `<` on two strings: lexicographic on code units, a proper prefix first. */
  predicate TextLess(a: string, b: string)
    decreases |a|
  {
    if |a| == 0 then |b| > 0
    else if |b| == 0 then false
    else if a[0] != b[0] then a[0] < b[0]
    else TextLess(a[1..], b[1..])
  }

  /**
   * `aValue < bValue` on two keys. Keys of different kinds never meet in one
   * sort (a field has one kind); putting every instant first only makes the
   * order total.
   */
  predicate Less(a: Key, b: Key) {
    match (a, b)
    case (Text(x), Text(y)) => TextLess(x, y)
    case (Instant(x), Instant(y)) => x < y
    case (Instant(_), Text(_)) => true
    case (Text(_), Instant(_)) => false
  }

  lemma {:induction false} TextLessIrreflexive(a: string)
    ensures !TextLess(a, a)
    decreases |a|
  {
    if |a| > 0 {
      TextLessIrreflexive(a[1..]);
    }
  }

  lemma {:induction false} TextLessTransitive(a: string, b: string, c: string)
    requires TextLess(a, b) && TextLess(b, c)
    ensures TextLess(a, c)
    decreases |a|
  {
    if |a| > 0 && |b| > 0 && |c| > 0 && a[0] == b[0] && b[0] == c[0] {
      TextLessTransitive(a[1..], b[1..], c[1..]);
    }
  }

  lemma {:induction false} TextLessTrichotomous(a: string, b: string)
    ensures TextLess(a, b) || a == b || TextLess(b, a)
    decreases |a|
  {
    if |a| > 0 && |b| > 0 && a[0] == b[0] {
      TextLessTrichotomous(a[1..], b[1..]);
      if a[1..] == b[1..] {
        assert a == [a[0]] + a[1..] && b == [b[0]] + b[1..];
      }
    }
  }

  /** `Less` is a strict total order on keys. */
  lemma LessIsStrictTotalOrder(a: Key, b: Key, c: Key)
    ensures !Less(a, a)
    ensures Less(a, b) && Less(b, c) ==> Less(a, c)
    ensures Less(a, b) || a == b || Less(b, a)
  {
    if a.Text? {
      TextLessIrreflexive(a.chars);
      if b.Text? {
        TextLessTrichotomous(a.chars, b.chars);
        if c.Text? && Less(a, b) && Less(b, c) {
          TextLessTransitive(a.chars, b.chars, c.chars);
        }
      }
    }
  }

  /**
   * The comparator passed to `sort`: negative when `a` goes first, positive
   * when `b` goes first, zero when neither is smaller.
   */
  function Compare(dir: SortDirection, a: Key, b: Key): (r: int)
    ensures r == -1 || r == 0 || r == 1
    ensures r == 0 <==> a == b
  {
    LessIsStrictTotalOrder(a, b, a);
    if Less(a, b) then (if dir == Asc then -1 else 1)
    else if Less(b, a) then (if dir == Asc then 1 else -1)
    else 0
  }

  /**
   * The comparator is consistent in the sense `Array.prototype.sort` requires:
   * zero exactly on equal keys, antisymmetric, and transitive (both the strict
   * and the non-strict relation), so the order of a stable sort is defined.
   */
  lemma CompareIsConsistent(dir: SortDirection, a: Key, b: Key, c: Key)
    ensures Compare(dir, a, b) == 0 <==> a == b
    ensures Compare(dir, a, b) == -Compare(dir, b, a)
    ensures Compare(dir, a, b) <= 0 && Compare(dir, b, c) <= 0 ==> Compare(dir, a, c) <= 0
    ensures Compare(dir, a, b) < 0 && Compare(dir, b, c) <= 0 ==> Compare(dir, a, c) < 0
    ensures Compare(dir, a, b) <= 0 && Compare(dir, b, c) < 0 ==> Compare(dir, a, c) < 0
  {
    LessIsStrictTotalOrder(a, b, c);
    LessIsStrictTotalOrder(b, a, c);
    LessIsStrictTotalOrder(c, b, a);
    LessIsStrictTotalOrder(b, c, a);
    LessIsStrictTotalOrder(a, c, b);
    LessIsStrictTotalOrder(c, a, b);
    LessIsStrictTotalOrder(a, b, a);
    LessIsStrictTotalOrder(b, a, b);
  }

  /** Ascending puts the smaller key first, descending the larger one. */
  lemma CompareFollowsDirection(dir: SortDirection, a: Key, b: Key)
    ensures Compare(dir, a, b) < 0 <==> (if dir == Asc then Less(a, b) else Less(b, a))
    ensures Compare(dir, a, b) <= 0 <==> (if dir == Asc then !Less(b, a) else !Less(a, b))
  {
    LessIsStrictTotalOrder(a, b, a);
    LessIsStrictTotalOrder(b, a, b);
  }
}
