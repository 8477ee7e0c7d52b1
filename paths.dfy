/** Unix path joining as Rust's `Path::join` performs it: an absolute argument
    replaces the base; otherwise a `/` separator is inserted unless the base is
    empty or already ends in one. */
module Paths {

  predicate IsAbsolute(p: string) {
    |p| > 0 && p[0] == '/'
  }

  predicate NeedsSeparator(base: string) {
    |base| > 0 && base[|base| - 1] != '/'
  }

  function Join(base: string, rel: string): (r: string)
    ensures IsAbsolute(rel) ==> r == rel
    ensures !IsAbsolute(rel) ==> |r| >= |base| + |rel| && r[..|base|] == base && r[|r| - |rel|..] == rel
    ensures !IsAbsolute(rel) && NeedsSeparator(base) ==> |r| == |base| + 1 + |rel| && r[|base|] == '/'
    ensures !IsAbsolute(rel) && !NeedsSeparator(base) ==> |r| == |base| + |rel|
  {
    if IsAbsolute(rel) then rel
    else if NeedsSeparator(base) then base + "/" + rel
    else base + rel
  }

  /** Two relative paths joined onto the same root land on the same destination
      only if they are the same path: projects with distinct namespaced paths
      are cloned into distinct directories. */
  lemma JoinRelativeInjective(base: string, rel1: string, rel2: string)
    requires !IsAbsolute(rel1) && !IsAbsolute(rel2)
    requires Join(base, rel1) == Join(base, rel2)
    ensures rel1 == rel2
  {
    var r := Join(base, rel1);
    assert r[|r| - |rel1|..] == rel1;
    assert r[|r| - |rel2|..] == rel2;
  }
}
