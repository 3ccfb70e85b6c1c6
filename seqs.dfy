/** Array operations the source writes with `filter`: dropping one index, dropping nulls. */
module Seqs {
  import opened Wrappers

  /** `a` is `b` with some elements left out, the rest in their original order. */
  predicate IsSubsequence<T(==)>(a: seq<T>, b: seq<T>)
    decreases |b|
  {
    if a == [] then true
    else if b == [] then false
    else (a[0] == b[0] && IsSubsequence(a[1..], b[1..])) || IsSubsequence(a, b[1..])
  }

  /** `s.filter((_, i) => i !== index)`. */
  function DropIndex<T>(s: seq<T>, index: int): seq<T>
    decreases |s|
  {
    if s == [] then []
    else (if index == 0 then [] else [s[0]]) + DropIndex(s[1..], index - 1)
  }

  /** Dropping an index in range removes exactly that element and keeps the others in order. */
  lemma {:induction false} DropIndexInRange<T>(s: seq<T>, index: int)
    requires 0 <= index < |s|
    ensures DropIndex(s, index) == s[..index] + s[index + 1..]
    decreases |s|
  {
    if index == 0 {
      DropIndexOutOfRange(s[1..], -1);
    } else {
      DropIndexInRange(s[1..], index - 1);
      calc {
        DropIndex(s, index);
        [s[0]] + DropIndex(s[1..], index - 1);
        [s[0]] + (s[1..][..index - 1] + s[1..][index..]);
        { assert [s[0]] + s[1..][..index - 1] == s[..index]; assert s[1..][index..] == s[index + 1..]; }
        s[..index] + s[index + 1..];
      }
    }
  }

  /** Dropping an index out of range changes nothing. */
  lemma {:induction false} DropIndexOutOfRange<T>(s: seq<T>, index: int)
    requires index < 0 || index >= |s|
    ensures DropIndex(s, index) == s
    decreases |s|
  {
    if s != [] {
      DropIndexOutOfRange(s[1..], index - 1);
      assert s == [s[0]] + s[1..];
    }
  }

  /** After dropping an index in range, each remaining element is the one at the same or the next position. */
  lemma DropIndexAt<T>(s: seq<T>, index: int, j: int)
    requires 0 <= index < |s| && 0 <= j < |s| - 1
    ensures |DropIndex(s, index)| == |s| - 1
    ensures DropIndex(s, index)[j] == s[if j < index then j else j + 1]
  {
    DropIndexInRange(s, index);
    if j < index {
      assert (s[..index] + s[index + 1..])[j] == s[..index][j];
    } else {
      assert (s[..index] + s[index + 1..])[j] == s[index + 1..][j - index];
    }
  }

  /** `xs.filter(x => x !== null)`. */
  function FilterSome<T>(xs: seq<Option<T>>): seq<T>
    decreases |xs|
  {
    if xs == [] then []
    else FilterSome(xs[..|xs| - 1]) + (if xs[|xs| - 1].Some? then [xs[|xs| - 1].value] else [])
  }

  /** The kept elements are exactly the present ones, never more than the input. */
  lemma {:induction false} FilterSomeSpec<T>(xs: seq<Option<T>>)
    ensures |FilterSome(xs)| <= |xs|
    ensures forall x :: x in FilterSome(xs) <==> Some(x) in xs
    ensures |FilterSome(xs)| == |xs| <==> forall i | 0 <= i < |xs| :: xs[i].Some?
    decreases |xs|
  {
    if xs != [] {
      var init := xs[..|xs| - 1];
      FilterSomeSpec(init);
      assert xs == init + [xs[|xs| - 1]];
      if |FilterSome(xs)| == |xs| {
        assert |FilterSome(init)| == |init| && xs[|xs| - 1].Some?;
        assert forall i | 0 <= i < |xs| - 1 :: xs[i] == init[i];
      }
    }
  }

  /** Filtering preserves the relative order of the present elements. */
  lemma {:induction false} FilterSomeOrder<T>(xs: seq<Option<T>>, i: int, j: int)
    requires 0 <= i < j < |xs| && xs[i].Some? && xs[j].Some?
    ensures exists a, b | 0 <= a < b < |FilterSome(xs)| :: FilterSome(xs)[a] == xs[i].value && FilterSome(xs)[b] == xs[j].value
    decreases |xs|
  {
    var init := xs[..|xs| - 1];
    if j < |xs| - 1 {
      FilterSomeOrder(init, i, j);
      var a, b :| 0 <= a < b < |FilterSome(init)| && FilterSome(init)[a] == init[i].value && FilterSome(init)[b] == init[j].value;
      assert FilterSome(xs)[a] == FilterSome(init)[a] && FilterSome(xs)[b] == FilterSome(init)[b];
    } else {
      FilterSomeSpec(init);
      assert Some(xs[i].value) in init by { assert init[i] == xs[i]; }
      var a :| 0 <= a < |FilterSome(init)| && FilterSome(init)[a] == xs[i].value;
      var b := |FilterSome(init)|;
      assert FilterSome(xs)[a] == xs[i].value && FilterSome(xs)[b] == xs[j].value;
    }
  }
}
