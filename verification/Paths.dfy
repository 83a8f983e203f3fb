/** Byte strings, mount-relative paths and the keys the overlay map stores them under. */
module Paths {

  type Byte = b: int | 0 <= b < 256
  type Bytes = seq<Byte>
  /** A path component. */
  type Name = Bytes
  /** A mount-relative path as its components; the mount root is `[]`. */
  type Path = seq<Name>

  datatype Option<+T> = None | Some(value: T)

  const SLASH: Byte := 47

  function Parent(p: Path): Path
    requires p != []
  {
    p[..|p| - 1]
  }

  function Last(p: Path): Name
    requires p != []
  {
    p[|p| - 1]
  }

  /** The forward-slash-separated key of a path. */
  function Key(p: Path): Bytes
  {
    if p == [] then []
    else if |p| == 1 then p[0]
    else Key(Parent(p)) + [SLASH] + Last(p)
  }

  /** `p` with its leading `src` exchanged for `dst`. */
  function Rebase(p: Path, src: Path, dst: Path): (r: Path)
    requires src <= p
    ensures dst <= r && |r| == |dst| + |p| - |src|
    ensures r[|dst|..] == p[|src|..]
  {
    dst + p[|src|..]
  }

  lemma RebaseBack(p: Path, src: Path, dst: Path)
    requires src <= p
    ensures Rebase(Rebase(p, src, dst), dst, src) == p
  {
  }

  lemma RebasePrefix(p: Path, q: Path, src: Path, dst: Path)
    requires src <= p && src <= q
    ensures p <= q <==> Rebase(p, src, dst) <= Rebase(q, src, dst)
    ensures p < q <==> Rebase(p, src, dst) < Rebase(q, src, dst)
  {
    var a, b := Rebase(p, src, dst), Rebase(q, src, dst);
    assert p == src + a[|dst|..] && q == src + b[|dst|..];
    if p <= q {
      assert a == b[..|a|];
    }
    if a <= b {
      assert p == q[..|p|];
    }
  }

  /** The paths at or below a child are those below its parent that continue with its name. */
  lemma AtOrBelowChild(d: Path, name: Name, h: Path)
    ensures d + [name] <= h <==> d < h && h[|d|] == name
    ensures d + [name] <= h <==> d + [name] == h || d + [name] < h
  {
    if d < h && h[|d|] == name { assert h[..|d| + 1] == d + [name]; }
    if d + [name] <= h { assert h[..|d|] == d; }
  }

  lemma AboveChild(e: Path, d: Path, name: Name)
    ensures e < d + [name] <==> e == d || e < d
  {
    if e < d + [name] { assert e == d[..|e|]; }
  }
}
