/** Facts about the document edits the converter strings together: where a
    path leads once a child has been appended, removed or replaced, and
    how the name counts that decide it change. */
module Edits {
  import opened Wrappers
  import opened Text
  import opened Paths
  import opened Xml

  // ----- counting names ------------------------------------------------------

  lemma {:induction false} CountNamedAppend(ns: seq<string>, m: string, n: string)
    ensures CountNamed(ns + [m], n) == CountNamed(ns, n) + (if m == n then 1 else 0)
  {
    if ns != [] {
      assert (ns + [m])[1..] == ns[1..] + [m];
      CountNamedAppend(ns[1..], m, n);
    }
  }

  lemma {:induction false} CountNamedSplit(ns: seq<string>, i: nat, n: string)
    requires i <= |ns|
    ensures CountNamed(ns, n) == CountNamed(ns[..i], n) + CountNamed(ns[i..], n)
  {
    if i > 0 {
      assert ns[..i][1..] == ns[1..][..i - 1];
      assert ns[i..] == ns[1..][i - 1..];
      CountNamedSplit(ns[1..], i - 1, n);
    }
  }

  lemma NamesAppend(cs: seq<Element>, x: Element)
    ensures Names(cs + [x]) == Names(cs) + [x.name]
  {
  }

  /** The count splits around one occurrence. */
  lemma CountAround(ms: seq<string>, n: string, i: nat)
    requires i < |ms| && ms[i] == n
    ensures CountNamed(ms, n) == CountNamed(ms[..i], n) + 1 + CountNamed(ms[i + 1..], n)
  {
    CountNamedSplit(ms, i, n);
    assert ms[i..][0] == n && ms[i..][1..] == ms[i + 1..];
  }

  /** The child just appended is the last of its name. */
  lemma NthNamedLast(ns: seq<string>, n: string)
    ensures CountNamed(ns + [n], n) == CountNamed(ns, n) + 1
    ensures NthNamed(ns + [n], n, CountNamed(ns + [n], n)) == |ns|
  {
    CountNamedAppend(ns, n, n);
    var ms := ns + [n];
    var i := NthNamed(ms, n, CountNamed(ms, n));
    CountAround(ms, n, i);
    CountNamedZero(ms[i + 1..], n);
    LastInTail(ms, i);
  }

  lemma LastInTail(ms: seq<string>, j: nat)
    ensures j + 1 < |ms| ==> ms[|ms| - 1] in ms[j + 1..]
  {
    if j + 1 < |ms| {
      assert ms[j + 1..][|ms| - j - 2] == ms[|ms| - 1];
    }
  }

  // ----- resolving near a resolved path -----------------------------------------

  /** A path that leads below the root splits at its last '/' into the path
      of the parent and the last step, which selects the element among the
      parent's children. */
  lemma ResolveParent(root: Element, path: string)
    requires Resolve(root, path).Some? && Resolve(root, path).value != []
    ensures '/' in path && ParentPath(path) != []
    ensures ParentPath(path) + "/" + ElementName(path) == path && '/' !in ElementName(path)
    ensures Resolve(root, ParentPath(path)) == Some(ParentPos(Resolve(root, path).value))
    ensures ParseStep(ElementName(path)).Some?
    ensures Select(At(root, ParentPos(Resolve(root, path).value)).children,
                   ParseStep(ElementName(path)).value) == Some(Last(Resolve(root, path).value))
  {
    var pos := Resolve(root, path).value;
    RFindFound(path, '/');
    ParentElementRoundTrip(path);
    var q, n := ParentPath(path), ElementName(path);
    SingleStepIsRoot(root, path);
    ResolveJoin(root, q, n);
  }

  /** A path with one step can only lead to the root. */
  lemma SingleStepIsRoot(root: Element, path: string)
    ensures RFind(path, '/') == 0 && Resolve(root, path).Some? ==> Resolve(root, path).value == []
  {
  }

  /** Where "path/name" leads for a plain name: to the one child of that
      name, if there is exactly one. */
  lemma ResolveChild(root: Element, path: string, name: string)
    requires Resolve(root, path).Some? && ValidName(name)
    ensures var pos := Resolve(root, path).value;
      var ns := Names(At(root, pos).children);
      Resolve(root, path + "/" + name) ==
        if CountNamed(ns, name) == 1 then Some(pos + [NthNamed(ns, name, 1)]) else None
  {
    ParsePlainStep(name);
    ResolveJoin(root, path, name);
  }

  /** Where "path/name[k]" leads: to the k-th child of that name. */
  lemma ResolveNthChild(root: Element, path: string, name: string, k: nat)
    requires Resolve(root, path).Some? && ValidName(name)
    ensures var pos := Resolve(root, path).value;
      var ns := Names(At(root, pos).children);
      Resolve(root, path + "/" + name + "[" + NatToString(k) + "]") ==
        if 1 <= k <= CountNamed(ns, name) then Some(pos + [NthNamed(ns, name, k)]) else None
  {
    var step := name + "[" + NatToString(k) + "]";
    ParseIndexedStep(name, k);
    assert '/' !in step by {
      assert ParseStep(step).Some?;
    }
    assert path + "/" + name + "[" + NatToString(k) + "]" == path + "/" + step;
    ResolveJoin(root, path, step);
  }

  // ----- appending and replacing ----------------------------------------------

  /** After appending x under p, x sits at p + [k], k the old child count,
      and replacing it there is appending the replacement instead. */
  lemma AppendAt(root: Element, p: seq<nat>, x: Element, y: Element)
    requires ValidPos(root, p)
    ensures var r := Put(root, p, AppendChild(At(root, p), x));
      var k := |At(root, p).children|;
      && ValidPos(r, p + [k]) && At(r, p + [k]) == x
      && Put(r, p + [k], y) == Put(root, p, AppendChild(At(root, p), y))
  {
    var a := At(root, p);
    var r := Put(root, p, AppendChild(a, x));
    var k := |a.children|;
    AtPut(root, p, AppendChild(a, x));
    ValidPosAppend(r, p, [k]);
    PutAppend(r, p, [k], y);
    assert Put(AppendChild(a, x), [k], y) == AppendChild(a, y) by {
      assert (a.children + [x])[k := y] == a.children + [y];
    }
    PutPut(root, p, AppendChild(a, x), AppendChild(a, y));
  }

  /** Replacing the element at pos by x, then by y, is replacing it by y;
      and the element at pos is then x, reachable by the same path when x
      keeps the name. */
  lemma ReplaceResolves(root: Element, path: string, x: Element)
    requires Resolve(root, path).Some?
    requires x.name == At(root, Resolve(root, path).value).name
    ensures Resolve(Put(root, Resolve(root, path).value, x), path) == Resolve(root, path)
    ensures At(Put(root, Resolve(root, path).value, x), Resolve(root, path).value) == x
  {
    var pos := Resolve(root, path).value;
    ResolvePut(root, path, pos, x);
    AtPut(root, pos, x);
  }

  /** Appending a child to the element a path leads to keeps the path. */
  lemma AppendResolves(root: Element, path: string, x: Element)
    requires Resolve(root, path).Some?
    ensures var pos := Resolve(root, path).value;
      Resolve(Put(root, pos, AppendChild(At(root, pos), x)), path) == Some(pos)
  {
    var pos := Resolve(root, path).value;
    ResolvePut(root, path, pos, AppendChild(At(root, pos), x));
  }

  /** Removing a child and putting another in its place replaces it. */
  lemma DetachInsert(root: Element, pos: seq<nat>, x: Element)
    requires ValidPos(root, pos) && pos != []
    ensures ValidPos(root, ParentPos(pos)) && Last(pos) < |At(root, ParentPos(pos)).children|
    ensures var pp := ParentPos(pos);
      var d := Detach(root, pos);
      && ValidPos(d, pp) && At(d, pp) == RemoveChild(At(root, pp), Last(pos))
      && Put(d, pp, InsertChild(At(d, pp), Last(pos), x)) == Put(root, pos, x)
  {
    ParentPosValid(root, pos);
    var pp := ParentPos(pos);
    var par := At(root, pp);
    var l := Last(pos);
    var d := Detach(root, pos);
    AtPut(root, pp, RemoveChild(par, l));
    RemoveInsert(par, l, x);
    PutPut(root, pp, RemoveChild(par, l), par.(children := par.children[l := x]));
    assert pos == pp + [l];
    assert ValidPos(par, [l]);
    PutAppend(root, pp, [l], x);
  }

  // ----- editing an element's own attributes or text ---------------------------

  /** Replacing an element by one with the same name and children (an edit
      of its attributes or text) keeps every position, and every other
      element's name, attributes and text. */
  lemma {:induction false} AttrEdit(e: Element, pos: seq<nat>, x: Element, q: seq<nat>)
    requires ValidPos(e, pos) && x.name == At(e, pos).name && x.children == At(e, pos).children
    ensures ValidPos(Put(e, pos, x), q) <==> ValidPos(e, q)
    ensures ValidPos(e, q) && q != pos ==>
      && At(Put(e, pos, x), q).name == At(e, q).name
      && At(Put(e, pos, x), q).attrs == At(e, q).attrs
      && At(Put(e, pos, x), q).text == At(e, q).text
    ensures ValidPos(e, q) && q == pos ==> At(Put(e, pos, x), q) == x
    decreases |q|
  {
    if q == [] {
    } else if pos == [] {
      assert Put(e, pos, x) == x;
    } else {
      var c := e.children[pos[0]];
      var e' := Put(e, pos, x);
      assert e'.children == e.children[pos[0] := Put(c, pos[1..], x)];
      if q[0] == pos[0] {
        AttrEdit(c, pos[1..], x, q[1..]);
        assert q[1..] == pos[1..] ==> q == pos;
      }
    }
  }

  /** Such an edit leaves where any steps lead unchanged. */
  lemma {:induction false} DescendAttrEdit(e: Element, steps: seq<Step>, pos: seq<nat>, x: Element)
    requires ValidPos(e, pos) && x.name == At(e, pos).name && x.children == At(e, pos).children
    ensures Descend(Put(e, pos, x), steps) == Descend(e, steps)
    decreases |steps|
  {
    if steps != [] {
      var e' := Put(e, pos, x);
      if pos == [] {
        assert e' == x;
        assert Names(e'.children) == Names(e.children);
      } else {
        var c := e.children[pos[0]];
        var c' := Put(c, pos[1..], x);
        assert e'.children == e.children[pos[0] := c'];
        assert c'.name == c.name by {
          if pos[1..] == [] { } else { PutKeepsName(c, pos[1..], x); }
        }
        assert Names(e'.children) == Names(e.children);
        SelectNames(e.children, e'.children, steps[0]);
        var i := Select(e.children, steps[0]);
        if i.Some? && i.value == pos[0] {
          DescendAttrEdit(c, steps[1..], pos[1..], x);
        }
      }
    }
  }

  /** ... and where any path leads. */
  lemma ResolveAttrEdit(root: Element, path: string, pos: seq<nat>, x: Element)
    requires ValidPos(root, pos) && x.name == At(root, pos).name && x.children == At(root, pos).children
    ensures Resolve(Put(root, pos, x), path) == Resolve(root, path)
  {
    var root' := Put(root, pos, x);
    assert root'.name == root.name by {
      if pos != [] { PutKeepsName(root, pos, x); }
    }
    match ParsePath(path)
    case None =>
    case Some(steps) =>
      if steps != [] {
        DescendAttrEdit(root, steps[1..], pos, x);
      }
  }

  /** An edit strictly below where a path leads keeps the path, whatever
      the edit does to the names down there. */
  lemma ResolveAbove(root: Element, path: string, pos: seq<nat>, x: Element)
    requires Resolve(root, path).Some? && ValidPos(root, pos)
    requires StrictPrefix(Resolve(root, path).value, pos)
    ensures Resolve(Put(root, pos, x), path) == Resolve(root, path)
  {
    var q := Resolve(root, path).value;
    var rest := pos[|q|..];
    assert pos == q + rest;
    ValidPosAppend(root, q, rest);
    PutAppend(root, q, rest, x);
    PutKeepsName(At(root, q), rest, x);
    ResolvePut(root, path, q, Put(At(root, q), rest, x));
  }

  /** A path that leads to the root has one step, so its parent path is
      empty and leads nowhere. */
  lemma RootPathParent(root: Element, path: string)
    requires Resolve(root, path) == Some([])
    ensures Resolve(root, ParentPath(path)).None?
  {
    assert ParentPath(path) == [];
  }

  /** The first k steps lead to the first k positions. */
  lemma {:induction false} DescendPrefix(e: Element, steps: seq<Step>, k: nat)
    requires Descend(e, steps).Some? && k <= |steps|
    ensures Descend(e, steps[..k]) == Some(Descend(e, steps).value[..k])
    decreases k
  {
    if k > 0 {
      var i := Select(e.children, steps[0]).value;
      assert steps[..k][0] == steps[0];
      assert steps[..k][1..] == steps[1..][..k - 1];
      DescendPrefix(e.children[i], steps[1..], k - 1);
      var q := Descend(e.children[i], steps[1..]).value;
      assert ([i] + q)[..k] == [i] + q[..k - 1];
    }
  }

  /** Cutting a path at one of its slashes leads to an ancestor of where
      the path leads. */
  lemma ResolveCut(root: Element, p: string, c: nat)
    requires 0 < c < |p| && p[c] == '/' && Resolve(root, p).Some?
    ensures Resolve(root, p[..c]).Some?
    ensures StrictPrefix(Resolve(root, p[..c]).value, Resolve(root, p).value)
  {
    ParsePathCut(p, c);
    var steps := ParsePath(p).value;
    var cs := ParsePath(p[..c]).value;
    assert cs == steps[..|cs|];
    assert cs[0] == steps[0];
    assert cs[1..] == steps[1..][..|cs| - 1];
    DescendPrefix(root, steps[1..], |cs| - 1);
  }
}
