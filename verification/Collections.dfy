/** What several components share: optional values and concatenation. */
module Collections {

  datatype Option<+T> = None | Some(value: T)

  /** The parts one after the other. */
  function Concat<T>(parts: seq<seq<T>>): seq<T> {
    if parts == [] then [] else Concat(parts[..|parts| - 1]) + parts[|parts| - 1]
  }

  lemma ConcatSnoc<T>(parts: seq<seq<T>>, last: seq<T>)
    ensures Concat(parts + [last]) == Concat(parts) + last
  {
    assert (parts + [last])[..|parts|] == parts;
  }

  lemma {:induction false} ConcatAdds<T>(a: seq<seq<T>>, b: seq<seq<T>>)
    ensures Concat(a + b) == Concat(a) + Concat(b)
    decreases |b|
  {
    if b == [] {
      assert a + b == a;
    } else {
      hide Concat;
      var front, last := b[..|b| - 1], b[|b| - 1];
      ConcatAdds(a, front);
      ConcatSnoc(a + front, last);
      ConcatSnoc(front, last);
      assert a + b == a + front + [last] && b == front + [last];
    }
  }

  lemma ConcatSplit<T>(parts: seq<seq<T>>, k: nat)
    requires k <= |parts|
    ensures Concat(parts[..k]) + Concat(parts[k..]) == Concat(parts)
  {
    hide Concat;
    ConcatAdds(parts[..k], parts[k..]);
    assert parts[..k] + parts[k..] == parts;
  }

  lemma ConcatCons<T>(parts: seq<seq<T>>)
    requires parts != []
    ensures Concat(parts) == parts[0] + Concat(parts[1..])
  {
    ConcatAdds([parts[0]], parts[1..]);
    assert [parts[0]] + parts[1..] == parts && [parts[0]][..0] == [];
  }
}
