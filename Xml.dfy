/** The document the TiXI handle holds: an ordered tree of named elements
    with attributes and text, and the location paths that address it.
    A path is absolute, "/cpacs/header/updates/update[2]"; a step "name"
    selects the one child of that name (TiXI refuses a step that matches
    none or several), a step "name[k]" the k-th child of that name. */
module Xml {
  import opened Wrappers
  import opened Text
  import Paths

  datatype Element = Element(name: string, attrs: map<string, string>, text: string, children: seq<Element>)

  /** A childless element holding only text, as addTextElement creates it. */
  function Leaf(name: string, text: string): Element
  {
    Element(name, map[], text, [])
  }

  // ----- steps and their parsing --------------------------------------------

  datatype Step = Child(name: string) | NthChild(name: string, k: nat)

  /** The element names the model accepts: non-empty, and free of the
      characters that delimit steps and predicates. */
  predicate ValidName(n: string)
  {
    |n| > 0 && forall i :: 0 <= i < |n| ==> n[i] != '/' && n[i] != '[' && n[i] != ']'
  }

  /** One location step: "name" or "name[k]" with k written in decimal. */
  function ParseStep(s: string): (r: Option<Step>)
    ensures r.Some? ==> ValidName(r.value.name) && r.value.name == Paths.StripIndex(s)
    ensures r.Some? ==> '/' !in s
  {
    var b := RFind(s, '[');
    if b < 0 then
      if ValidName(s) then Some(Child(s)) else None
    else if b > 0 && |s| >= b + 3 && s[|s| - 1] == ']' && AllDigits(s[b + 1..|s| - 1])
         && ValidName(s[..b]) then
      Some(NthChild(s[..b], DigitsValue(s[b + 1..|s| - 1])))
    else None
  }

  /** "name[k]", as "%s[%d]" writes it, reads back as the k-th child step. */
  lemma ParseIndexedStep(name: string, k: nat)
    requires ValidName(name)
    ensures ParseStep(name + "[" + NatToString(k) + "]") == Some(NthChild(name, k))
  {
    var d := NatToString(k);
    var s := name + "[" + d + "]";
    assert s == name + ['['] + (d + "]");
    assert '[' !in d + "]" by {
      forall j | 0 <= j < |d + "]"| ensures (d + "]")[j] != '[' {
        if j < |d| { assert IsDigit(d[j]); }
      }
    }
    RFindJoin(name, '[', d + "]");
    assert s[|name| + 1..|s| - 1] == d;
    assert s[..|name|] == name;
    DigitsValueOfNatToString(k);
  }

  /** A plain name reads back as the unique-child step. */
  lemma ParsePlainStep(name: string)
    requires ValidName(name)
    ensures ParseStep(name) == Some(Child(name))
  {
    RFindFound(name, '[');
  }

  /** An absolute path: '/' followed by steps separated by '/'. */
  function ParsePath(p: string): (r: Option<seq<Step>>)
    ensures r.Some? ==> |r.value| >= 1 && (RFind(p, '/') > 0 ==> |r.value| >= 2)
    decreases |p|
  {
    var i := RFind(p, '/');
    if i < 0 then None
    else
      match ParseStep(p[i + 1..])
      case None => None
      case Some(st) =>
        if i == 0 then Some([st])
        else
          match ParsePath(p[..i])
          case None => None
          case Some(ss) => Some(ss + [st])
  }

  /** Appending "/name" to a path appends one step. */
  lemma ParsePathJoin(q: string, name: string)
    requires q != [] && '/' !in name
    ensures ParsePath(q + "/" + name) ==
      if ParsePath(q).Some? && ParseStep(name).Some?
      then Some(ParsePath(q).value + [ParseStep(name).value])
      else None
  {
    var p := q + "/" + name;
    assert p == q + ['/'] + name;
    RFindJoin(q, '/', name);
    assert p[..|q|] == q && p[|q| + 1..] == name;
  }

  /** Cutting a path at one of its slashes keeps a proper prefix of its steps. */
  lemma {:induction false} ParsePathCut(p: string, c: nat)
    requires 0 < c < |p| && p[c] == '/' && ParsePath(p).Some?
    ensures ParsePath(p[..c]).Some?
    ensures ParsePath(p[..c]).value < ParsePath(p).value
    decreases |p|
  {
    var i := RFind(p, '/');
    assert i >= c;
    if i > c {
      assert p[..i][c] == '/';
      ParsePathCut(p[..i], c);
      assert p[..i][..c] == p[..c];
    }
  }

  // ----- positions -----------------------------------------------------------

  /** A position is the list of child indexes leading from the root. */
  predicate ValidPos(e: Element, pos: seq<nat>)
    decreases |pos|
  {
    pos == [] || (pos[0] < |e.children| && ValidPos(e.children[pos[0]], pos[1..]))
  }

  function At(e: Element, pos: seq<nat>): Element
    requires ValidPos(e, pos)
    decreases |pos|
  {
    if pos == [] then e else At(e.children[pos[0]], pos[1..])
  }

  /** The tree with the element at pos replaced by x. */
  function Put(e: Element, pos: seq<nat>, x: Element): Element
    requires ValidPos(e, pos)
    decreases |pos|
  {
    if pos == [] then x
    else e.(children := e.children[pos[0] := Put(e.children[pos[0]], pos[1..], x)])
  }

  predicate StrictPrefix(p: seq<nat>, q: seq<nat>) { |p| < |q| && p == q[..|p|] }

  lemma {:induction false} AtPut(e: Element, pos: seq<nat>, x: Element)
    requires ValidPos(e, pos)
    ensures ValidPos(Put(e, pos, x), pos) && At(Put(e, pos, x), pos) == x
    decreases |pos|
  {
    if pos != [] {
      AtPut(e.children[pos[0]], pos[1..], x);
    }
  }

  lemma {:induction false} PutAt(e: Element, pos: seq<nat>)
    requires ValidPos(e, pos)
    ensures Put(e, pos, At(e, pos)) == e
    decreases |pos|
  {
    if pos != [] {
      PutAt(e.children[pos[0]], pos[1..]);
    }
  }

  lemma {:induction false} PutPut(e: Element, pos: seq<nat>, x: Element, y: Element)
    requires ValidPos(e, pos)
    ensures ValidPos(Put(e, pos, x), pos)
    ensures Put(Put(e, pos, x), pos, y) == Put(e, pos, y)
    decreases |pos|
  {
    AtPut(e, pos, x);
    if pos != [] {
      PutPut(e.children[pos[0]], pos[1..], x, y);
    }
  }

  /** A position below pos is a position in the element found at pos. */
  lemma {:induction false} ValidPosAppend(e: Element, pos: seq<nat>, rest: seq<nat>)
    requires ValidPos(e, pos)
    ensures ValidPos(e, pos + rest) <==> ValidPos(At(e, pos), rest)
    ensures ValidPos(e, pos + rest) ==> At(e, pos + rest) == At(At(e, pos), rest)
    decreases |pos|
  {
    if pos != [] {
      assert (pos + rest)[1..] == pos[1..] + rest;
      ValidPosAppend(e.children[pos[0]], pos[1..], rest);
    } else {
      assert pos + rest == rest;
    }
  }

  /** Replacing below pos is replacing the element at pos by its updated copy. */
  lemma {:induction false} PutAppend(e: Element, pos: seq<nat>, rest: seq<nat>, y: Element)
    requires ValidPos(e, pos) && ValidPos(At(e, pos), rest)
    ensures ValidPos(e, pos + rest)
    ensures Put(e, pos + rest, y) == Put(e, pos, Put(At(e, pos), rest, y))
    decreases |pos|
  {
    ValidPosAppend(e, pos, rest);
    if pos != [] {
      assert (pos + rest)[1..] == pos[1..] + rest;
      assert (pos + rest)[0] == pos[0];
      PutAppend(e.children[pos[0]], pos[1..], rest, y);
    } else {
      assert pos + rest == rest;
    }
  }

  /** A position that does not pass through pos keeps its validity, and the
      element there keeps its name, attributes and text. */
  lemma {:induction false} AtPutOther(e: Element, pos: seq<nat>, x: Element, q: seq<nat>)
    requires ValidPos(e, pos) && ValidPos(e, q) && !StrictPrefix(pos, q) && pos != q
    ensures ValidPos(Put(e, pos, x), q)
    ensures At(Put(e, pos, x), q).name == At(e, q).name
    ensures At(Put(e, pos, x), q).attrs == At(e, q).attrs
    ensures At(Put(e, pos, x), q).text == At(e, q).text
    ensures !StrictPrefix(q, pos) ==> At(Put(e, pos, x), q) == At(e, q)
    decreases |q|
  {
    if q != [] && pos != [] {
      var c := e.children[pos[0]];
      if q[0] == pos[0] {
        assert StrictPrefix(pos[1..], q[1..]) ==> StrictPrefix(pos, q);
        assert pos[1..] == q[1..] ==> pos == q;
        assert StrictPrefix(q, pos) ==> StrictPrefix(q[1..], pos[1..]);
        AtPutOther(c, pos[1..], x, q[1..]);
      }
    }
  }

  // ----- selecting children by name -------------------------------------------

  function Names(cs: seq<Element>): (ns: seq<string>)
    ensures |ns| == |cs| && forall i :: 0 <= i < |cs| ==> ns[i] == cs[i].name
  {
    seq(|cs|, i requires 0 <= i < |cs| => cs[i].name)
  }

  function CountNamed(ns: seq<string>, n: string): nat
  {
    if ns == [] then 0 else (if ns[0] == n then 1 else 0) + CountNamed(ns[1..], n)
  }

  lemma {:induction false} CountNamedZero(ns: seq<string>, n: string)
    ensures CountNamed(ns, n) == 0 <==> n !in ns
  {
    if ns != [] {
      CountNamedZero(ns[1..], n);
      assert ns == [ns[0]] + ns[1..];
    }
  }

  /** The index of the k-th name equal to n. */
  function NthNamed(ns: seq<string>, n: string, k: nat): (i: nat)
    requires 1 <= k <= CountNamed(ns, n)
    ensures i < |ns| && ns[i] == n && CountNamed(ns[..i], n) == k - 1
  {
    if ns[0] == n && k == 1 then
      0
    else
      var j := NthNamed(ns[1..], n, if ns[0] == n then k - 1 else k);
      assert ns[..j + 1][1..] == ns[1..][..j];
      j + 1
  }

  /** The child index a step selects, if any. */
  function Select(cs: seq<Element>, st: Step): (r: Option<nat>)
    ensures r.Some? ==> r.value < |cs| && cs[r.value].name == st.name
  {
    var ns := Names(cs);
    match st
    case Child(n) => if CountNamed(ns, n) == 1 then Some(NthNamed(ns, n, 1)) else None
    case NthChild(n, k) => if 1 <= k <= CountNamed(ns, n) then Some(NthNamed(ns, n, k)) else None
  }

  /** Selection looks at the children's names only. */
  lemma SelectNames(cs: seq<Element>, ds: seq<Element>, st: Step)
    requires Names(cs) == Names(ds)
    ensures Select(cs, st) == Select(ds, st)
  {
  }

  /** The positions the steps lead to from e. */
  function Descend(e: Element, steps: seq<Step>): (r: Option<seq<nat>>)
    ensures r.Some? ==> ValidPos(e, r.value) && |r.value| == |steps|
    ensures r.Some? && |steps| > 0 ==> At(e, r.value).name == steps[|steps| - 1].name
    decreases |steps|
  {
    if steps == [] then Some([])
    else
      match Select(e.children, steps[0])
      case None => None
      case Some(i) =>
        match Descend(e.children[i], steps[1..])
        case None => None
        case Some(q) => Some([i] + q)
  }

  /** One more step at the end selects among the children of where the
      other steps lead. */
  lemma {:induction false} DescendSnoc(e: Element, steps: seq<Step>, st: Step)
    ensures Descend(e, steps + [st]) ==
      match Descend(e, steps)
      case None => None
      case Some(q) =>
        match Select(At(e, q).children, st)
        case None => None
        case Some(i) => Some(q + [i])
    decreases |steps|
  {
    if steps == [] {
      assert steps + [st] == [st];
      match Select(e.children, st)
      case None =>
      case Some(i) =>
        assert Descend(e.children[i], []) == Some([]);
        assert [i] + [] == [] + [i];
    } else {
      assert (steps + [st])[0] == steps[0] && (steps + [st])[1..] == steps[1..] + [st];
      match Select(e.children, steps[0])
      case None =>
      case Some(i) =>
        DescendSnoc(e.children[i], steps[1..], st);
        match Descend(e.children[i], steps[1..])
        case None =>
        case Some(q) =>
          match Select(At(e.children[i], q).children, st)
          case None =>
          case Some(j) => assert [i] + (q + [j]) == ([i] + q) + [j];
    }
  }

  /** Replacing an element by one of the same name does not change where any
      steps lead, as long as they do not go down into the replaced element. */
  lemma {:induction false} DescendPut(e: Element, steps: seq<Step>, pos: seq<nat>, x: Element)
    requires ValidPos(e, pos) && x.name == At(e, pos).name
    requires Descend(e, steps).Some? && !StrictPrefix(pos, Descend(e, steps).value)
    ensures Descend(Put(e, pos, x), steps) == Descend(e, steps)
    decreases |steps|
  {
    if steps != [] && pos != [] {
      var e' := Put(e, pos, x);
      var c := e.children[pos[0]];
      var c' := Put(c, pos[1..], x);
      assert e'.children == e.children[pos[0] := c'];
      assert c'.name == c.name by {
        if pos[1..] == [] { } else { PutKeepsName(c, pos[1..], x); }
      }
      assert Names(e'.children) == Names(e.children);
      SelectNames(e.children, e'.children, steps[0]);
      var i := Select(e.children, steps[0]).value;
      if i == pos[0] {
        var q := Descend(e, steps).value;
        assert StrictPrefix(pos[1..], q[1..]) ==> StrictPrefix(pos, q);
        DescendPut(c, steps[1..], pos[1..], x);
      }
    }
  }

  lemma PutKeepsName(e: Element, pos: seq<nat>, x: Element)
    requires ValidPos(e, pos) && pos != []
    ensures Put(e, pos, x).name == e.name
  {
  }

  /** The positions a parsed path leads to: its first step must name the root. */
  function Locate(root: Element, steps: seq<Step>): Option<seq<nat>>
  {
    if steps == [] then None
    else if steps[0] == Child(root.name) || steps[0] == NthChild(root.name, 1) then
      Descend(root, steps[1..])
    else None
  }

  /** The position of the one element a path addresses, if it addresses one. */
  function Resolve(root: Element, path: string): (r: Option<seq<nat>>)
    ensures r.Some? ==> ValidPos(root, r.value)
  {
    match ParsePath(path)
    case None => None
    case Some(steps) => Locate(root, steps)
  }

  /** Where "q/name" leads: to the child `name` selects under where q leads. */
  lemma ResolveJoin(root: Element, q: string, name: string)
    requires q != [] && '/' !in name
    ensures Resolve(root, q + "/" + name) ==
      if Resolve(root, q).Some? && ParseStep(name).Some? then
        var p := Resolve(root, q).value;
        var sel := Select(At(root, p).children, ParseStep(name).value);
        if sel.Some? then Some(p + [sel.value]) else None
      else None
  {
    ParsePathJoin(q, name);
    match ParsePath(q)
    case None =>
    case Some(ss) =>
      match ParseStep(name)
      case None =>
      case Some(st) =>
        assert Resolve(root, q + "/" + name) == Locate(root, ss + [st]);
        if ss != [] {
          LocateSnoc(root, ss, st);
        }
  }

  /** One more step at the end of a non-empty list of steps selects among
      the children of where the list leads. */
  lemma LocateSnoc(root: Element, ss: seq<Step>, st: Step)
    requires ss != []
    ensures Locate(root, ss + [st]) ==
      if Locate(root, ss).Some? then
        var p := Locate(root, ss).value;
        var sel := Select(At(root, p).children, st);
        if sel.Some? then Some(p + [sel.value]) else None
      else None
  {
    var all := ss + [st];
    assert all[0] == ss[0] && all[1..] == ss[1..] + [st];
    DescendSnoc(root, ss[1..], st);
    if ss[0] == Child(root.name) || ss[0] == NthChild(root.name, 1) {
      assert Locate(root, all) == Descend(root, ss[1..] + [st]);
      assert Locate(root, ss) == Descend(root, ss[1..]);
    }
  }

  /** Where a path leads survives replacing an element by one of the same
      name elsewhere or above it. */
  lemma ResolvePut(root: Element, path: string, pos: seq<nat>, x: Element)
    requires ValidPos(root, pos) && x.name == At(root, pos).name
    requires Resolve(root, path).Some? && !StrictPrefix(pos, Resolve(root, path).value)
    ensures Resolve(Put(root, pos, x), path) == Resolve(root, path)
  {
    var steps := ParsePath(path).value;
    var root' := Put(root, pos, x);
    assert root'.name == root.name by {
      if pos != [] { PutKeepsName(root, pos, x); }
    }
    DescendPut(root, steps[1..], pos, x);
  }

  // ----- edits at one parent --------------------------------------------------

  function RemoveChild(p: Element, i: nat): Element
    requires i < |p.children|
  {
    p.(children := p.children[..i] + p.children[i + 1..])
  }

  function InsertChild(p: Element, i: nat, x: Element): Element
    requires i <= |p.children|
  {
    p.(children := p.children[..i] + [x] + p.children[i..])
  }

  function AppendChild(p: Element, x: Element): Element
  {
    p.(children := p.children + [x])
  }

  /** Removing a child and inserting another at its index replaces it. */
  lemma RemoveInsert(p: Element, i: nat, x: Element)
    requires i < |p.children|
    ensures InsertChild(RemoveChild(p, i), i, x) == p.(children := p.children[i := x])
  {
    var cs := p.children;
    var r := cs[..i] + cs[i + 1..];
    assert r[..i] == cs[..i] && r[i..] == cs[i + 1..];
    assert r[..i] + [x] + r[i..] == cs[i := x];
  }

  function Last(p: seq<nat>): nat requires p != [] { p[|p| - 1] }

  function ParentPos(p: seq<nat>): seq<nat> requires p != [] { p[..|p| - 1] }

  /** The parent of a valid position is valid and holds the element there. */
  lemma ParentPosValid(e: Element, p: seq<nat>)
    requires ValidPos(e, p) && p != []
    ensures ValidPos(e, ParentPos(p))
    ensures Last(p) < |At(e, ParentPos(p)).children|
    ensures At(e, p) == At(e, ParentPos(p)).children[Last(p)]
  {
    assert p == ParentPos(p) + [Last(p)];
    ValidPosPrefix(e, p, |p| - 1);
    ValidPosAppend(e, ParentPos(p), [Last(p)]);
  }

  lemma {:induction false} ValidPosPrefix(e: Element, p: seq<nat>, k: nat)
    requires ValidPos(e, p) && k <= |p|
    ensures ValidPos(e, p[..k])
    decreases k
  {
    if k > 0 {
      assert p[..k][1..] == p[1..][..k - 1];
      ValidPosPrefix(e.children[p[0]], p[1..], k - 1);
    }
  }

  /** The tree without the element at p (p is not the root). */
  function Detach(e: Element, p: seq<nat>): Element
    requires ValidPos(e, p) && p != []
  {
    ParentPosValid(e, p);
    Put(e, ParentPos(p), RemoveChild(At(e, ParentPos(p)), Last(p)))
  }
}
