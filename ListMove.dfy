/** The host's list-mutation callback `list.add(to, list.removeAt(from))`: a stable
    remove-then-insert move on the backing list, including what happens when an index is
    out of range (Kotlin's `IndexOutOfBoundsException`). */
module ListMove {

  /** `removeAt(i)`'s effect on the contents. */
  function RemoveAt<T>(s: seq<T>, i: int): (r: seq<T>)
    requires 0 <= i < |s|
    ensures |r| == |s| - 1
    ensures forall k :: 0 <= k < i ==> r[k] == s[k]
    ensures forall k :: i <= k < |r| ==> r[k] == s[k + 1]
  {
    s[..i] + s[i + 1..]
  }

  /** `add(i, x)`'s effect on the contents. */
  function InsertAt<T>(s: seq<T>, i: int, x: T): (r: seq<T>)
    requires 0 <= i <= |s|
    ensures |r| == |s| + 1 && r[i] == x
    ensures forall k :: 0 <= k < i ==> r[k] == s[k]
    ensures forall k :: i < k < |r| ==> r[k] == s[k - 1]
  {
    s[..i] + [x] + s[i..]
  }

  /** The list after a successful `add(to, removeAt(from))`: the element at `from` is taken
      out and put back so that it ends up at `to`. */
  function Moved<T>(s: seq<T>, from: int, to: int): (r: seq<T>)
    requires 0 <= from < |s| && 0 <= to < |s|
    ensures |r| == |s|
    ensures r[to] == s[from]
    ensures RemoveAt(r, to) == RemoveAt(s, from)
  {
    var r := InsertAt(RemoveAt(s, from), to, s[from]);
    assert RemoveAt(r, to) == RemoveAt(s, from);
    r
  }

  /** Removing one element and inserting it again keeps the multiset of elements. */
  lemma MovedIsPermutation<T>(s: seq<T>, from: int, to: int)
    requires 0 <= from < |s| && 0 <= to < |s|
    ensures multiset(Moved(s, from, to)) == multiset(s)
  {
    var rest := RemoveAt(s, from);
    assert s == s[..from] + [s[from]] + s[from + 1..];
    assert rest == s[..from] + s[from + 1..];
    var r := Moved(s, from, to);
    assert r == rest[..to] + [s[from]] + rest[to..];
    assert rest == rest[..to] + rest[to..];
    calc {
      multiset(r);
      multiset(rest[..to]) + multiset{s[from]} + multiset(rest[to..]);
      multiset(rest) + multiset{s[from]};
      multiset(s[..from]) + multiset(s[from + 1..]) + multiset{s[from]};
      multiset(s);
    }
  }

  /** Position by position: a move downwards shifts the elements in between up by one,
      a move upwards shifts them down by one, and everything outside the range stays put. */
  lemma MovedAt<T>(s: seq<T>, from: int, to: int, k: int)
    requires 0 <= from < |s| && 0 <= to < |s| && 0 <= k < |s|
    ensures k < from && k < to ==> Moved(s, from, to)[k] == s[k]
    ensures k > from && k > to ==> Moved(s, from, to)[k] == s[k]
    ensures from <= k < to ==> Moved(s, from, to)[k] == s[k + 1]
    ensures to < k <= from ==> Moved(s, from, to)[k] == s[k - 1]
  {
  }

  /** Moving back undoes a move: the callback's moves are invertible. */
  lemma MovedInverse<T>(s: seq<T>, from: int, to: int)
    requires 0 <= from < |s| && 0 <= to < |s|
    ensures Moved(Moved(s, from, to), to, from) == s
  {
    var r := Moved(s, from, to);
    var back := Moved(r, to, from);
    assert RemoveAt(back, from) == RemoveAt(s, from);
    assert back[from] == s[from];
    forall k | 0 <= k < |s| ensures back[k] == s[k] {
      if k < from {
        assert back[k] == RemoveAt(back, from)[k];
      } else if k > from {
        assert back[k] == RemoveAt(back, from)[k - 1];
      }
    }
  }

  /** Two moves that chain (the second starts where the first ended, as the controller's
      successive moves do) amount to one move from the first origin to the last target. */
  lemma MovedChain<T>(s: seq<T>, a: int, b: int, c: int)
    requires 0 <= a < |s| && 0 <= b < |s| && 0 <= c < |s|
    ensures Moved(Moved(s, a, b), b, c) == Moved(s, a, c)
  {
  }

  /** The backing list of the screen (`toMutableStateList()`), mutated in place. */
  class ItemList<T> {
    var items: seq<T>

    constructor (initial: seq<T>)
      ensures items == initial
    {
      items := initial;
    }

    /** `add(to, removeAt(from))`. `removeAt` throws before changing anything when `from`
        is out of range; `add` throws when `to` is beyond the shortened list, after the
        element has already been removed. */
    method Move(from: int, to: int) returns (thrown: bool)
      modifies this
      ensures thrown <==> !(0 <= from < |old(items)| && 0 <= to < |old(items)|)
      ensures !thrown ==> items == Moved(old(items), from, to)
      ensures thrown && !(0 <= from < |old(items)|) ==> items == old(items)
      ensures thrown && 0 <= from < |old(items)| ==> items == RemoveAt(old(items), from)
    {
      if !(0 <= from < |items|) {
        return true;
      }
      var removed := items[from];
      items := RemoveAt(items, from);
      if !(0 <= to <= |items|) {
        return true;
      }
      items := InsertAt(items, to, removed);
      return false;
    }
  }
}
