/** Small value types shared by the session and the supervisor models. */
module Common {

  /** An optional value, as Rust's `Option`. */
  datatype Option<+T> = None | Some(value: T)

  /** One octet of a frame read from or written to a stream. */
  newtype byte = x: int | 0 <= x < 0x100

  /** The bytes of one frame. */
  type Bytes = seq<byte>

  /** The concatenation of `f` over the elements of `s`, in order. */
  function Gather<T, U>(f: T -> seq<U>, s: seq<T>): seq<U>
  {
    if s == [] then [] else f(s[0]) + Gather(f, s[1..])
  }

  lemma GatherSingle<T, U>(f: T -> seq<U>, x: T)
    ensures Gather(f, [x]) == f(x)
  {
    assert [x][1..] == [];
  }

  lemma {:induction false} GatherAppend<T, U>(f: T -> seq<U>, a: seq<T>, b: seq<T>)
    ensures Gather(f, a + b) == Gather(f, a) + Gather(f, b)
  {
    if a == [] {
      assert a + b == b;
    } else {
      var ab := a + b;
      assert ab[0] == a[0];
      assert ab[1..] == a[1..] + b;
      GatherAppend(f, a[1..], b);
      calc {
        Gather(f, ab);
        f(a[0]) + Gather(f, a[1..] + b);
        f(a[0]) + (Gather(f, a[1..]) + Gather(f, b));
        (f(a[0]) + Gather(f, a[1..])) + Gather(f, b);
      }
    }
  }
}
