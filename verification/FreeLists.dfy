/** The segregated free lists as sequences of block addresses. */
module FreeLists {
  import opened Config
  import opened SizeClass

  type Lists = map<Class, seq<int>>

  /** The list of a size, if it has one. */
  function ListOf(p: Params, size: int): (c: Option<Class>)
    ensures c.Some? ==> Granular(p, size) && ValidClass(p, c.value)
  {
    if Granular(p, size) then
      HasList(p, size);
      MapFloor(p, size)
    else None
  }

  lemma ListOfIs(p: Params, size: int)
    requires ListOf(p, size).Some?
    ensures 0 < size && Granular(p, size) && MapFloor(p, size) == ListOf(p, size)
  {
    hide MapFloor;
  }

  ghost predicate NoDup(s: seq<int>) {
    forall i, j :: 0 <= i < j < |s| ==> s[i] != s[j]
  }

  function Without(s: seq<int>, b: int): seq<int> {
    if s == [] then []
    else if s[0] == b then Without(s[1..], b)
    else [s[0]] + Without(s[1..], b)
  }

  /** Put a block of the given size at the front of its list. */
  function Link(p: Params, lists: Lists, b: int, size: int): Lists {
    match ListOf(p, size)
    case Some(c) => if c in lists then lists[c := [b] + lists[c]] else lists
    case None => lists
  }

  /** Take a block of the given size out of its list. */
  function Unlink(p: Params, lists: Lists, b: int, size: int): Lists {
    match ListOf(p, size)
    case Some(c) => if c in lists then lists[c := Without(lists[c], b)] else lists
    case None => lists
  }

  // ----- the invariant -----

  /** List `c` holds, once each, the free blocks whose size maps to `c`. */
  ghost predicate ListOk(p: Params, lists: Lists, free: map<int, int>, c: Class) {
    && (c in lists <==> ValidClass(p, c))
    && (c in lists ==>
          && NoDup(lists[c])
          && forall b :: b in lists[c] <==> b in free && ListOf(p, free[b]) == Some(c))
  }

  ghost predicate ListsOk(p: Params, lists: Lists, free: map<int, int>) {
    && (forall c {:trigger ListOk(p, lists, free, c)} :: ListOk(p, lists, free, c))
    && (forall b :: b in free ==> 0 < b && ListOf(p, free[b]).Some?)
  }

  // ----- removing and adding one block -----

  lemma {:induction false} WithoutMembers(s: seq<int>, b: int, x: int)
    ensures x in Without(s, b) <==> x in s && x != b
  {
    if s != [] {
      WithoutMembers(s[1..], b, x);
      assert s == [s[0]] + s[1..];
    }
  }

  lemma {:induction false} WithoutNoDup(s: seq<int>, b: int)
    requires NoDup(s)
    ensures NoDup(Without(s, b))
  {
    if s != [] {
      assert NoDup(s[1..]);
      WithoutNoDup(s[1..], b);
      WithoutMembers(s[1..], b, s[0]);
    }
  }

  lemma {:induction false} WithoutAbsent(s: seq<int>, b: int)
    requires b !in s
    ensures Without(s, b) == s
  {
    if s != [] {
      WithoutAbsent(s[1..], b);
    }
  }

  /** In a list without repetitions exactly one position is cut out. */
  lemma {:induction false} WithoutAt(s: seq<int>, k: nat)
    requires NoDup(s) && k < |s|
    ensures Without(s, s[k]) == s[..k] + s[k + 1..]
  {
    assert NoDup(s[1..]);
    if k == 0 {
      WithoutAbsent(s[1..], s[0]);
    } else {
      WithoutAt(s[1..], k - 1);
      assert s[..k] + s[k + 1..] == [s[0]] + (s[1..][..k - 1] + s[1..][k..]);
    }
  }

  lemma UnlinkOk(p: Params, lists: Lists, free: map<int, int>, b: int)
    requires ListsOk(p, lists, free) && b in free
    ensures ListOf(p, free[b]).Some? && ListOf(p, free[b]).value in lists
    ensures b in lists[ListOf(p, free[b]).value]
    ensures ListsOk(p, Unlink(p, lists, b, free[b]), free - {b})
  {
    hide ListOf;
    var c0 := ListOf(p, free[b]).value;
    assert ListOk(p, lists, free, c0);
    var lists', free' := Unlink(p, lists, b, free[b]), free - {b};
    forall c
      ensures ListOk(p, lists', free', c)
    {
      assert ListOk(p, lists, free, c);
      if c == c0 {
        WithoutNoDup(lists[c], b);
        forall x
          ensures x in lists'[c] <==> x in free' && ListOf(p, free'[x]) == Some(c)
        {
          WithoutMembers(lists[c], b, x);
        }
      }
    }
  }

  lemma LinkOk(p: Params, lists: Lists, free: map<int, int>, b: int, size: int)
    requires ListsOk(p, lists, free) && b !in free && 0 < b && ListOf(p, size).Some?
    ensures ListOf(p, size).value in lists
    ensures ListsOk(p, Link(p, lists, b, size), free[b := size])
  {
    hide ListOf;
    var c0 := ListOf(p, size).value;
    assert ListOk(p, lists, free, c0);
    var lists', free' := Link(p, lists, b, size), free[b := size];
    forall c
      ensures ListOk(p, lists', free', c)
    {
      assert ListOk(p, lists, free, c);
    }
  }

  lemma LinkUnlink(p: Params, lists: Lists, free: map<int, int>, b: int, size: int)
    requires ListsOk(p, lists, free) && b !in free && ListOf(p, size).Some?
    ensures ListOf(p, size).value in lists
    ensures Unlink(p, Link(p, lists, b, size), b, size) == lists
  {
    hide ListOf;
    var c := ListOf(p, size).value;
    assert ListOk(p, lists, free, c);
    WithoutAbsent(lists[c], b);
    assert ([b] + lists[c])[1..] == lists[c];
  }
}
