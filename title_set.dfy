/**
 * `BTreeSet<TagTitle>`, as a remark stores its tags: a sequence kept in
 * strictly ascending title order, so duplicates cannot occur.
 */
module TitleSets {
  import opened TagTitles

  predicate StrictlySorted(s: seq<TagTitle>) {
    forall i, j :: 0 <= i < j < |s| ==> TitleLess(s[i], s[j])
  }

  /** `BTreeSet::insert`: adds `x` in its place, or leaves the set alone if it is there. */
  function Insert(x: TagTitle, s: seq<TagTitle>): (r: seq<TagTitle>)
    requires StrictlySorted(s)
    ensures StrictlySorted(r)
    ensures forall y :: y in r <==> y in s || y == x
  {
    if s == [] then [x]
    else if x == s[0] then s
    else if TitleLess(x, s[0]) then
      forall j | 0 <= j < |s| ensures TitleLess(x, s[j]) {
        TitleOrder(x, s[0], s[j]);
      }
      [x] + s
    else
      TitleOrder(x, s[0], x);
      var rest := Insert(x, s[1..]);
      assert forall y :: y in s[1..] ==> TitleLess(s[0], y);
      [s[0]] + rest
  }

  /** `BTreeSet::from_iter`: the titles inserted one after the other. */
  function FromIter(tags: seq<TagTitle>): (r: seq<TagTitle>)
    ensures StrictlySorted(r)
    ensures forall y :: y in r <==> y in tags
  {
    if tags == [] then []
    else
      var init := tags[..|tags| - 1];
      assert tags == init + [tags[|tags| - 1]];
      Insert(tags[|tags| - 1], FromIter(init))
  }

  /** A set has one ascending enumeration: two sorted sequences with the same members are equal. */
  lemma {:induction false} SortedUnique(a: seq<TagTitle>, b: seq<TagTitle>)
    requires StrictlySorted(a) && StrictlySorted(b)
    requires forall y :: y in a <==> y in b
    ensures a == b
  {
    if a != [] {
      assert a[0] in a;
    }
    if b != [] {
      assert b[0] in b;
    }
    if a != [] && b != [] {
      assert b[0] in a && a[0] in b;
      var k :| 0 <= k < |a| && a[k] == b[0];
      var m :| 0 <= m < |b| && b[m] == a[0];
      if k > 0 && m > 0 {
        TitleOrder(a[0], b[0], a[0]);
      }
      assert a[0] == b[0] by {
        if k != 0 {
          TitleOrder(a[0], a[k], a[0]);
        }
      }
      forall y ensures y in a[1..] <==> y in b[1..] {
        if y in a[1..] {
          TitleOrder(a[0], y, a[0]);
          assert y in b;
        }
        if y in b[1..] {
          TitleOrder(b[0], y, b[0]);
          assert y in a;
        }
      }
      SortedUnique(a[1..], b[1..]);
      assert a == [a[0]] + a[1..] && b == [b[0]] + b[1..];
    }
  }

  /** The stored set depends only on which titles were given, not on their order or repetitions. */
  lemma FromIterSameMembers(t1: seq<TagTitle>, t2: seq<TagTitle>)
    requires forall y :: y in t1 <==> y in t2
    ensures FromIter(t1) == FromIter(t2)
  {
    SortedUnique(FromIter(t1), FromIter(t2));
  }

  /** Titles already in ascending order, without repeats, are stored as given. */
  lemma FromIterOfSorted(s: seq<TagTitle>)
    requires StrictlySorted(s)
    ensures FromIter(s) == s
  {
    SortedUnique(FromIter(s), s);
  }

  /** Duplicates collapse: repeating a title does not change the stored set. */
  lemma FromIterCollapsesDuplicates(tags: seq<TagTitle>, x: TagTitle)
    requires x in tags
    ensures FromIter(tags + [x]) == FromIter(tags)
  {
    FromIterSameMembers(tags + [x], tags);
  }
}
