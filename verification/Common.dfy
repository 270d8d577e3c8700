/** Types and sequence facts shared by every component of the model. */
module Common {
  datatype Option<+T> = None | Some(value: T)

  newtype byte = x: int | 0 <= x < 0x100
  type Bytes = seq<byte>

  /** What `b"".join(chunks)` or a nested `extend` loop builds. */
  function Flatten<T>(xss: seq<seq<T>>): (flat: seq<T>)
  {
    if xss == [] then [] else xss[0] + Flatten(xss[1..])
  }

  lemma {:induction false} FlattenAppend<T>(xss: seq<seq<T>>, yss: seq<seq<T>>)
    ensures Flatten(xss + yss) == Flatten(xss) + Flatten(yss)
  {
    if xss == [] {
      NothingAdded(yss);
      NothingAdded(Flatten(yss));
    } else {
      DropFirst(xss, yss);
      FlattenAppend(xss[1..], yss);
      Assoc(xss[0], Flatten(xss[1..]), Flatten(yss));
    }
  }

  lemma FlattenSnoc<T>(xss: seq<seq<T>>, last: seq<T>)
    ensures Flatten(xss + [last]) == Flatten(xss) + last
  {
    FlattenAppend(xss, [last]);
    assert Flatten([last]) == last + Flatten([]) == last;
  }

  lemma Assoc<T>(a: seq<T>, b: seq<T>, c: seq<T>)
    ensures a + b + c == a + (b + c)
  {}

  lemma DropFirst<T>(a: seq<T>, b: seq<T>)
    requires a != []
    ensures a + b != [] && (a + b)[0] == a[0] && (a + b)[1..] == a[1..] + b
  {}

  lemma NothingAdded<T>(a: seq<T>)
    ensures [] + a == a && a + [] == a
  {}
}
