/** Facts about finite sequences that the file formats share: what stands at a
    given position of a file, and what stays there when the file grows. */
module Bytes {

  datatype Option<+T> = None | Some(value: T)

  /** A byte of a packed value. */
  type Byte = n: int | 0 <= n < 256

  /** `x` stands in `f` from position `pos` on. */
  ghost predicate At<T>(f: seq<T>, pos: nat, x: seq<T>) {
    pos + |x| <= |f| && f[pos..pos + |x|] == x
  }

  lemma AtSplit<T>(f: seq<T>, pos: nat, a: seq<T>, b: seq<T>)
    ensures At(f, pos, a + b) <==> At(f, pos, a) && At(f, pos + |a|, b)
  {
    var n, m := pos + |a|, pos + |a| + |b|;
    if m <= |f| {
      assert f[pos..m] == f[pos..n] + f[n..m];
      if At(f, pos, a + b) {
        assert f[pos..n] == (a + b)[..|a|] == a;
        assert f[n..m] == (a + b)[|a|..] == b;
      }
    }
  }

  lemma AtAppend<T>(f: seq<T>, x: seq<T>, g: seq<T>)
    ensures At(f + x + g, |f|, x)
  {
  }

  /** What stands in a file still stands there once bytes are appended. */
  lemma AtGrows<T>(f: seq<T>, f': seq<T>, pos: nat, x: seq<T>)
    requires At(f, pos, x) && f <= f'
    ensures At(f', pos, x)
  {
    assert f'[pos..pos + |x|] == f'[..|f|][pos..pos + |x|];
  }

  lemma AtElement<T>(f: seq<T>, pos: nat, x: seq<T>, i: nat)
    requires At(f, pos, x) && i < |x|
    ensures pos + i < |f| && f[pos + i] == x[i]
  {
    assert f[pos..pos + |x|][i] == f[pos + i];
  }

  lemma Associate<T>(a: seq<T>, b: seq<T>, c: seq<T>)
    ensures a + b + c == a + (b + c)
  {
  }

  /** The parts of a file, one after the other. */
  function Flat<T>(parts: seq<seq<T>>): seq<T> {
    if parts == [] then [] else Flat(parts[..|parts| - 1]) + parts[|parts| - 1]
  }

  lemma FlatNext<T>(parts: seq<seq<T>>, i: nat)
    requires i < |parts|
    ensures Flat(parts[..i + 1]) == Flat(parts[..i]) + parts[i]
  {
    assert parts[..i + 1][..i] == parts[..i];
  }

  /** The i-th part stands at the end of the parts before it. */
  lemma {:induction false} AtFlat<T>(f: seq<T>, pos: nat, parts: seq<seq<T>>, i: nat)
    requires At(f, pos, Flat(parts)) && i < |parts|
    ensures At(f, pos + |Flat(parts[..i])|, parts[i])
  {
    var n := |parts| - 1;
    AtSplit(f, pos, Flat(parts[..n]), parts[n]);
    if i < n {
      AtFlat(f, pos, parts[..n], i);
      assert parts[..n][..i] == parts[..i];
    }
  }

  lemma FlatAll<T>(parts: seq<seq<T>>)
    ensures Flat(parts[..|parts|]) == Flat(parts)
  {
    assert parts[..|parts|] == parts;
  }
}
