/** The LINQ steps `EvaluateBestHand` applies to card values:
    `OrderByDescending`, `Distinct`, and `GroupBy` followed by an ordering of
    the groups by size, then by value, both descending. */
module ValueLists {

  predicate Descending(s: seq<int>)
  {
    forall i, j :: 0 <= i < j < |s| ==> s[i] >= s[j]
  }

  predicate StrictlyDescending(s: seq<int>)
  {
    forall i, j :: 0 <= i < j < |s| ==> s[i] > s[j]
  }

  // ---------------------------------------------------------------------
  // OrderByDescending(v => v)

  function InsertDescending(x: int, s: seq<int>): seq<int>
  {
    if s == [] || x >= s[0] then [x] + s
    else [s[0]] + InsertDescending(x, s[1..])
  }

  lemma {:induction false} InsertDescendingBound(x: int, s: seq<int>, b: int)
    requires b >= x
    requires forall k :: 0 <= k < |s| ==> b >= s[k]
    ensures forall k :: 0 <= k < |InsertDescending(x, s)| ==> b >= InsertDescending(x, s)[k]
  {
    if !(s == [] || x >= s[0]) {
      InsertDescendingBound(x, s[1..], b);
    }
  }

  lemma {:induction false} InsertDescendingElements(x: int, s: seq<int>)
    ensures multiset(InsertDescending(x, s)) == multiset{x} + multiset(s)
  {
    if !(s == [] || x >= s[0]) {
      InsertDescendingElements(x, s[1..]);
      assert s == [s[0]] + s[1..];
    }
  }

  /** A value at least every element of a descending list extends it. */
  lemma ConsDescending(h: int, t: seq<int>)
    requires Descending(t)
    requires forall k :: 0 <= k < |t| ==> h >= t[k]
    ensures Descending([h] + t)
  {
    var r := [h] + t;
    forall i, j | 0 <= i < j < |r| ensures r[i] >= r[j] {
      assert r[j] == t[j - 1];
      if i > 0 {
        assert r[i] == t[i - 1];
      }
    }
  }

  lemma {:induction false} InsertDescendingOrdered(x: int, s: seq<int>)
    requires Descending(s)
    ensures Descending(InsertDescending(x, s))
  {
    if s == [] || x >= s[0] {
      ConsDescending(x, s);
    } else {
      assert Descending(s[1..]);
      InsertDescendingOrdered(x, s[1..]);
      InsertDescendingBound(x, s[1..], s[0]);
      ConsDescending(s[0], InsertDescending(x, s[1..]));
    }
  }

  lemma InsertDescendingSpec(x: int, s: seq<int>)
    requires Descending(s)
    ensures multiset(InsertDescending(x, s)) == multiset{x} + multiset(s)
    ensures Descending(InsertDescending(x, s))
  {
    InsertDescendingElements(x, s);
    InsertDescendingOrdered(x, s);
  }

  /** `OrderByDescending(v => v)`: a descending permutation of `s`. */
  function SortDescending(s: seq<int>): (r: seq<int>)
    ensures multiset(r) == multiset(s)
    ensures |r| == |s|
    ensures Descending(r)
  {
    if s == [] then []
    else
      var t := SortDescending(s[1..]);
      InsertDescendingSpec(s[0], t);
      assert s == [s[0]] + s[1..];
      assert |multiset(InsertDescending(s[0], t))| == |multiset(s)|;
      InsertDescending(s[0], t)
  }

  // ---------------------------------------------------------------------
  // Distinct()

  /** `Distinct()`: the first occurrence of each value, in order. */
  function Distinct(s: seq<int>): (d: seq<int>)
    ensures forall x :: x in d <==> x in s
    ensures forall i, j :: 0 <= i < j < |d| ==> d[i] != d[j]
    ensures Descending(s) ==> StrictlyDescending(d)
    ensures |d| <= |s|
  {
    if s == [] then []
    else
      var front := s[..|s| - 1];
      var last := s[|s| - 1];
      assert s == front + [last];
      var d := Distinct(front);
      if last in d then d
      else
        assert Descending(s) ==> forall k :: 0 <= k < |d| ==> d[k] > last by {
          if Descending(s) {
            forall k | 0 <= k < |d| ensures d[k] > last {
              assert d[k] in front;
              var m :| 0 <= m < |front| && front[m] == d[k];
              assert s[m] >= s[|s| - 1];
            }
          }
        }
        d + [last]
  }

  // ---------------------------------------------------------------------
  // GroupBy(v => v).OrderByDescending(g => g.Count()).ThenByDescending(g => g.Key)

  /** A group of equal values: the value and how many times it occurs. */
  datatype Group = Group(key: int, count: nat)

  /** The order of the groups: larger groups first, equal sizes by value. */
  predicate GroupBefore(a: Group, b: Group)
  {
    a.count > b.count || (a.count == b.count && a.key >= b.key)
  }

  predicate GroupsOrdered(gs: seq<Group>)
  {
    forall i, j :: 0 <= i < j < |gs| ==> GroupBefore(gs[i], gs[j])
  }

  function InsertGroup(g: Group, gs: seq<Group>): seq<Group>
  {
    if gs == [] || GroupBefore(g, gs[0]) then [g] + gs
    else [gs[0]] + InsertGroup(g, gs[1..])
  }

  lemma {:induction false} InsertGroupElements(g: Group, gs: seq<Group>)
    ensures multiset(InsertGroup(g, gs)) == multiset{g} + multiset(gs)
  {
    if !(gs == [] || GroupBefore(g, gs[0])) {
      InsertGroupElements(g, gs[1..]);
      assert gs == [gs[0]] + gs[1..];
    }
  }

  lemma {:induction false} InsertGroupBound(g: Group, gs: seq<Group>, b: Group)
    requires GroupBefore(b, g)
    requires forall k :: 0 <= k < |gs| ==> GroupBefore(b, gs[k])
    ensures forall k :: 0 <= k < |InsertGroup(g, gs)| ==> GroupBefore(b, InsertGroup(g, gs)[k])
  {
    if !(gs == [] || GroupBefore(g, gs[0])) {
      InsertGroupBound(g, gs[1..], b);
    }
  }

  /** A group ordered before every group of an ordered list extends it. */
  lemma ConsGroups(h: Group, t: seq<Group>)
    requires GroupsOrdered(t)
    requires forall k :: 0 <= k < |t| ==> GroupBefore(h, t[k])
    ensures GroupsOrdered([h] + t)
  {
    var r := [h] + t;
    forall i, j | 0 <= i < j < |r| ensures GroupBefore(r[i], r[j]) {
      assert r[j] == t[j - 1];
      if i > 0 {
        assert r[i] == t[i - 1];
      }
    }
  }

  lemma {:induction false} InsertGroupOrdered(g: Group, gs: seq<Group>)
    requires GroupsOrdered(gs)
    ensures GroupsOrdered(InsertGroup(g, gs))
  {
    if gs == [] || GroupBefore(g, gs[0]) {
      forall k | 0 <= k < |gs| ensures GroupBefore(g, gs[k]) {
        if k > 0 {
          assert GroupBefore(gs[0], gs[k]);
        }
      }
      ConsGroups(g, gs);
    } else {
      assert GroupsOrdered(gs[1..]);
      InsertGroupOrdered(g, gs[1..]);
      InsertGroupBound(g, gs[1..], gs[0]);
      ConsGroups(gs[0], InsertGroup(g, gs[1..]));
    }
  }

  lemma InsertGroupSpec(g: Group, gs: seq<Group>)
    requires GroupsOrdered(gs)
    ensures multiset(InsertGroup(g, gs)) == multiset{g} + multiset(gs)
    ensures GroupsOrdered(InsertGroup(g, gs))
  {
    InsertGroupElements(g, gs);
    InsertGroupOrdered(g, gs);
  }

  /** Sorting the groups (a stable insertion sort on `GroupBefore`). */
  function SortGroups(gs: seq<Group>): (r: seq<Group>)
    ensures multiset(r) == multiset(gs)
    ensures |r| == |gs|
    ensures GroupsOrdered(r)
  {
    if gs == [] then []
    else
      var t := SortGroups(gs[1..]);
      InsertGroupSpec(gs[0], t);
      assert gs == [gs[0]] + gs[1..];
      assert |multiset(InsertGroup(gs[0], t))| == |multiset(gs)|;
      InsertGroup(gs[0], t)
  }

  /** One group per distinct value of `values`, in `Distinct` order. */
  function UnsortedGroups(values: seq<int>): (us: seq<Group>)
    ensures |us| == |Distinct(values)|
    ensures forall i :: 0 <= i < |us| ==> us[i] == Group(Distinct(values)[i], multiset(values)[Distinct(values)[i]])
  {
    var d := Distinct(values);
    seq(|d|, i requires 0 <= i < |d| => Group(d[i], multiset(values)[d[i]]))
  }

  /** The groups of `values`, largest first, equal sizes by higher value:
      one group per distinct value, carrying its multiplicity. */
  function Groups(values: seq<int>): (gs: seq<Group>)
    ensures |gs| == |Distinct(values)|
    ensures GroupsOrdered(gs)
    ensures forall i :: 0 <= i < |gs| ==> gs[i].key in values && gs[i].count == multiset(values)[gs[i].key]
    ensures forall v :: v in values ==> exists i :: 0 <= i < |gs| && gs[i].key == v
    ensures forall i, j :: 0 <= i < j < |gs| ==> gs[i].key != gs[j].key
  {
    var us := UnsortedGroups(values);
    var gs := SortGroups(us);
    GroupsMembers(values, us, gs);
    gs
  }

  lemma GroupsMembers(values: seq<int>, us: seq<Group>, gs: seq<Group>)
    requires us == UnsortedGroups(values)
    requires multiset(gs) == multiset(us)
    ensures forall i :: 0 <= i < |gs| ==> gs[i].key in values && gs[i].count == multiset(values)[gs[i].key]
    ensures forall v :: v in values ==> exists i :: 0 <= i < |gs| && gs[i].key == v
    ensures forall i, j :: 0 <= i < j < |gs| ==> gs[i].key != gs[j].key
  {
    forall i | 0 <= i < |gs| ensures gs[i].key in values && gs[i].count == multiset(values)[gs[i].key] {
      GroupFromValues(values, us, gs[i]);
    }
    forall v | v in values ensures exists i :: 0 <= i < |gs| && gs[i].key == v {
      GroupOfValue(values, us, gs, v);
    }
    forall i, j | 0 <= i < j < |gs| ensures gs[i].key != gs[j].key {
      GroupKeysDiffer(values, us, gs, i, j);
    }
  }

  lemma GroupFromValues(values: seq<int>, us: seq<Group>, g: Group)
    requires us == UnsortedGroups(values)
    requires g in multiset(us)
    ensures g.key in values && g.count == multiset(values)[g.key]
  {
    var d := Distinct(values);
    var a :| 0 <= a < |us| && us[a] == g;
    assert d[a] in d;
  }

  lemma GroupOfValue(values: seq<int>, us: seq<Group>, gs: seq<Group>, v: int)
    requires us == UnsortedGroups(values)
    requires multiset(gs) == multiset(us)
    requires v in values
    ensures exists i :: 0 <= i < |gs| && gs[i].key == v
  {
    var d := Distinct(values);
    assert v in d;
    var m :| 0 <= m < |d| && d[m] == v;
    assert us[m] in multiset(gs);
    var i :| 0 <= i < |gs| && gs[i] == us[m];
    assert gs[i].key == v;
  }

  lemma GroupKeysDiffer(values: seq<int>, us: seq<Group>, gs: seq<Group>, i: int, j: int)
    requires us == UnsortedGroups(values)
    requires multiset(gs) == multiset(us)
    requires 0 <= i < j < |gs|
    ensures gs[i].key != gs[j].key
  {
    var d := Distinct(values);
    assert forall x, y :: 0 <= x < y < |us| ==> us[x].key != us[y].key by {
      forall x, y | 0 <= x < y < |us| ensures us[x].key != us[y].key {
        assert us[x].key == d[x] && us[y].key == d[y];
      }
    }
    assert gs[i] in multiset(us);
    var a :| 0 <= a < |us| && us[a] == gs[i];
    DistinctOnce(us, a);
    assert gs == gs[..i] + [gs[i]] + gs[i + 1..j] + [gs[j]] + gs[j + 1..];
    assert multiset(gs)[gs[i]] >= 1 + multiset([gs[j]])[gs[i]];
    assert gs[j] != gs[i];
    GroupFromValues(values, us, gs[i]);
    GroupFromValues(values, us, gs[j]);
  }

  /** An element of a sequence of groups with distinct keys occurs once. */
  lemma DistinctOnce(s: seq<Group>, a: int)
    requires 0 <= a < |s|
    requires forall i, j :: 0 <= i < j < |s| ==> s[i].key != s[j].key
    ensures multiset(s)[s[a]] == 1
  {
    var x := s[a];
    var pre, post := s[..a], s[a + 1..];
    assert s == pre + [x] + post;
    forall k | 0 <= k < |pre| ensures pre[k] != x { assert pre[k] == s[k]; }
    forall k | 0 <= k < |post| ensures post[k] != x { assert post[k] == s[a + 1 + k]; }
    assert x !in pre;
    assert x !in post;
  }

  /** The group keys, in group order. */
  function Keys(gs: seq<Group>): (ks: seq<int>)
    ensures |ks| == |gs|
    ensures forall i :: 0 <= i < |gs| ==> ks[i] == gs[i].key
  {
    seq(|gs|, i requires 0 <= i < |gs| => gs[i].key)
  }
}
