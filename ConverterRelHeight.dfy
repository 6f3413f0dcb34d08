/** The conversion of spar positions and non-explicit stringers to
    eta/xsi relative height points: the eta and xsi children give way to
    one sparPoint or refPoint child holding eta, xsi and the uID of the
    nearest component segment or trailing edge device. */
module ConverterRelHeight {
  import opened Wrappers
  import opened Paths
  import opened Xml
  import opened Tixi
  import opened TixiHelper
  import opened Edits
  import opened ConverterIsoLines

  /** The path of the child `name` of path, as path + '/name' builds it. */
  function Sub(path: string, name: string): string
  {
    path + "/" + name
  }

  const SparPositionXpath: string := "//sparPosition"
  const StringerXpath: string := "//lowerShell/stringer|//upperShell/stringer|//cell/stringer"

  // ----- the written point ----------------------------------------------------------

  /** The relative height point: eta, xsi and referenceUID, in that order. */
  function RelHeightPoint(name: string, eta: string, xsi: string, uid: string): Element
  {
    Element(name, map[], "", [Leaf("eta", eta), Leaf("xsi", xsi), Leaf("referenceUID", uid)])
  }

  /** The document after createElement(path, name) and the three adds. */
  function RelHeightPointWritten(root: Element, path: string, name: string, eta: string, xsi: string, uid: string)
    : Option<Element>
  {
    var r1 :- Appended(root, path, name, "");
    PointValuesWritten(r1, Sub(path, name), eta, xsi, uid)
  }

  /** The document after the three adds under the point. */
  function PointValuesWritten(root: Element, p: string, eta: string, xsi: string, uid: string): Option<Element>
  {
    var r2 :- Appended(root, p, "eta", eta);
    XsiAndUidWritten(r2, p, xsi, uid)
  }

  /** The last two adds under the point. */
  function XsiAndUidWritten(root: Element, p: string, xsi: string, uid: string): Option<Element>
  {
    var r3 :- Appended(root, p, "xsi", xsi);
    Appended(r3, p, "referenceUID", uid)
  }

  lemma PointNamesValid()
    ensures ValidName("eta") && ValidName("xsi") && ValidName("referenceUID")
  {
    ReferenceUidIsName();
  }

  lemma PointNameValid(name: string)
    requires name == "sparPoint" || name == "refPoint"
    ensures ValidName(name)
  {
  }

  /** The writes that end both conversions. */
  method WriteRelHeightPoint(tixi: Handle, path: string, name: string, eta: string, xsi: string, uid: string)
    returns (r: Result<()>)
    modifies tixi
    ensures r.Ok? <==> RelHeightPointWritten(old(tixi.root), path, name, eta, xsi, uid).Some?
    ensures r.Ok? ==> tixi.root == RelHeightPointWritten(old(tixi.root), path, name, eta, xsi, uid).value
  {
    var _ :- tixi.CreateElement(path, name);
    r := WritePointValues(tixi, Sub(path, name), eta, xsi, uid);
  }

  method WritePointValues(tixi: Handle, p: string, eta: string, xsi: string, uid: string) returns (r: Result<()>)
    modifies tixi
    ensures r.Ok? <==> PointValuesWritten(old(tixi.root), p, eta, xsi, uid).Some?
    ensures r.Ok? ==> tixi.root == PointValuesWritten(old(tixi.root), p, eta, xsi, uid).value
  {
    PointNamesValid();
    var _ :- tixi.AddDoubleElement(p, "eta", eta);
    r := WriteXsiAndUid(tixi, p, xsi, uid);
  }

  method WriteXsiAndUid(tixi: Handle, p: string, xsi: string, uid: string) returns (r: Result<()>)
    modifies tixi
    ensures r.Ok? <==> XsiAndUidWritten(old(tixi.root), p, xsi, uid).Some?
    ensures r.Ok? ==> tixi.root == XsiAndUidWritten(old(tixi.root), p, xsi, uid).value
  {
    PointNamesValid();
    var _ :- tixi.AddDoubleElement(p, "xsi", xsi);
    r := tixi.AddTextElement(p, "referenceUID", uid);
  }

  /** Under an element with no child called name, the point is appended as
      its last child, and nothing else changes. */
  lemma RelHeightPointAppended(root: Element, path: string, name: string, eta: string, xsi: string, uid: string)
    requires Resolve(root, path).Some? && ValidName(name)
    requires CountNamed(Names(At(root, Resolve(root, path).value).children), name) == 0
    ensures var pos := Resolve(root, path).value;
      RelHeightPointWritten(root, path, name, eta, xsi, uid)
        == Some(Put(root, pos, AppendChild(At(root, pos), RelHeightPoint(name, eta, xsi, uid))))
  {
    var pos := Resolve(root, path).value;
    var e := At(root, pos);
    var k := |e.children|;
    var x := Leaf(name, "");
    var r1 := Put(root, pos, AppendChild(e, x));
    assert Appended(root, path, name, "") == Some(r1);
    AppendAt(root, pos, x, x);
    AppendResolves(root, path, x);
    NthNamedLast(Names(e.children), name);
    NamesAppend(e.children, x);
    AtPut(root, pos, AppendChild(e, x));
    ResolveChild(r1, path, name);
    var point := RelHeightPoint(name, eta, xsi, uid);
    PointSteps(r1, pos + [k], Sub(path, name), name, eta, xsi, uid);
    AppendAt(root, pos, x, point);
  }

  /** The three adds under a new, empty point fill it. */
  lemma PointSteps(r1: Element, q: seq<nat>, p: string, name: string, eta: string, xsi: string, uid: string)
    requires ValidPos(r1, q) && Resolve(r1, p) == Some(q) && At(r1, q) == Leaf(name, "")
    ensures PointValuesWritten(r1, p, eta, xsi, uid) == Some(Put(r1, q, RelHeightPoint(name, eta, xsi, uid)))
  {
    var x := Leaf(name, "");
    var x1 := AppendChild(x, Leaf("eta", eta));
    var x2 := AppendChild(x1, Leaf("xsi", xsi));
    var x3 := AppendChild(x2, Leaf("referenceUID", uid));
    PointNamesValid();
    assert Put(r1, q, x) == r1 by {
      PutAt(r1, q);
    }
    AppendedReplaced(r1, q, x, p, "eta", eta);
    AppendedReplaced(r1, q, x1, p, "xsi", xsi);
    AppendedReplaced(r1, q, x2, p, "referenceUID", uid);
    PointBuilt(name, eta, xsi, uid);
  }

  /** The three children appended one after the other make the point. */
  lemma PointBuilt(name: string, eta: string, xsi: string, uid: string)
    ensures AppendChild(AppendChild(AppendChild(Leaf(name, ""), Leaf("eta", eta)), Leaf("xsi", xsi)), Leaf("referenceUID", uid))
      == RelHeightPoint(name, eta, xsi, uid)
  {
  }

  // ----- removing a sole child ----------------------------------------------------------

  /** The children not called n. */
  function Drop(cs: seq<Element>, n: string): (ds: seq<Element>)
    ensures |ds| <= |cs|
  {
    if cs == [] then [] else (if cs[0].name == n then [] else [cs[0]]) + Drop(cs[1..], n)
  }

  lemma {:induction false} DropAppend(a: seq<Element>, b: seq<Element>, n: string)
    ensures Drop(a + b, n) == Drop(a, n) + Drop(b, n)
  {
    if a != [] {
      assert (a + b)[1..] == a[1..] + b;
      DropAppend(a[1..], b, n);
    } else {
      assert a + b == b;
    }
  }

  lemma {:induction false} DropNone(cs: seq<Element>, n: string)
    requires CountNamed(Names(cs), n) == 0
    ensures Drop(cs, n) == cs
  {
    if cs != [] {
      assert Names(cs)[1..] == Names(cs[1..]);
      DropNone(cs[1..], n);
    }
  }

  /** Dropping n keeps the count of every other name. */
  lemma {:induction false} DropCount(cs: seq<Element>, n: string, m: string)
    requires m != n
    ensures CountNamed(Names(Drop(cs, n)), m) == CountNamed(Names(cs), m)
  {
    if cs != [] {
      assert Names(cs)[1..] == Names(cs[1..]);
      DropCount(cs[1..], n, m);
      var h := if cs[0].name == n then [] else [cs[0]];
      assert Drop(cs, n) == h + Drop(cs[1..], n);
      assert Names(h + Drop(cs[1..], n)) == Names(h) + Names(Drop(cs[1..], n));
      CountNamedSplit(Names(h) + Names(Drop(cs[1..], n)), |h|, m);
      assert (Names(h) + Names(Drop(cs[1..], n)))[..|h|] == Names(h);
      assert (Names(h) + Names(Drop(cs[1..], n)))[|h|..] == Names(Drop(cs[1..], n));
    }
  }

  /** Removing the only child called n is dropping n. */
  lemma RemoveSole(cs: seq<Element>, n: string, i: nat)
    requires i < |cs| && cs[i].name == n && CountNamed(Names(cs), n) == 1
    ensures cs[..i] + cs[i + 1..] == Drop(cs, n)
  {
    var a, b, m := cs[..i], cs[i + 1..], [cs[i]];
    NoneAround(cs, n, i);
    assert Drop(m, n) == [] by {
      assert m[1..] == [];
    }
    assert cs == (a + m) + b;
    DropAppend(a + m, b, n);
    DropAppend(a, m, n);
    assert a + [] == a;
  }

  /** Around the only child called n, no child is called n. */
  lemma NoneAround(cs: seq<Element>, n: string, i: nat)
    requires i < |cs| && cs[i].name == n && CountNamed(Names(cs), n) == 1
    ensures Drop(cs[..i], n) == cs[..i] && Drop(cs[i + 1..], n) == cs[i + 1..]
  {
    var ns := Names(cs);
    CountAround(ns, n, i);
    assert Names(cs[..i]) == ns[..i] && Names(cs[i + 1..]) == ns[i + 1..];
    DropNone(cs[..i], n);
    DropNone(cs[i + 1..], n);
  }

  /** The element the path leads to, with its only child called n removed. */
  lemma RemovedSoleChild(root: Element, path: string, n: string)
    requires Resolve(root, path).Some? && ValidName(n)
    requires CountNamed(Names(At(root, Resolve(root, path).value).children), n) == 1
    ensures var pos := Resolve(root, path).value;
      var e := At(root, pos);
      && CheckElement(root, Sub(path, n))
      && At(root, Resolve(root, Sub(path, n)).value) == e.children[NthNamed(Names(e.children), n, 1)]
      && Removed(root, Sub(path, n)) == Some(Put(root, pos, e.(children := Drop(e.children, n))))
      && Resolve(Put(root, pos, e.(children := Drop(e.children, n))), path) == Some(pos)
  {
    var pos := Resolve(root, path).value;
    var e := At(root, pos);
    var i := NthNamed(Names(e.children), n, 1);
    ResolveChild(root, path, n);
    var q := pos + [i];
    assert ParentPos(q) == pos && Last(q) == i;
    ValidPosAppend(root, pos, [i]);
    RemoveSole(e.children, n, i);
    assert RemoveChild(e, i) == e.(children := Drop(e.children, n));
    ResolvePut(root, path, pos, e.(children := Drop(e.children, n)));
  }

  // ----- spar positions -----------------------------------------------------------

  /** The document after one pass of the sparPosition loop, or None where
      the Python code raises. With an eta the point is written from eta,
      xsi and the nearest uID; without one the elementUID is converted
      into the sparPoint, which then gets the xsi. */
  function SparPositionConverted(root: Element, path: string, query: (Element, string) -> seq<string>)
    : Option<Element>
  {
    var xsi :- GetDoubleElement(root, Sub(path, "xsi")).ToOption();
    var r1 :- Removed(root, Sub(path, "xsi"));
    if CheckElement(r1, Sub(path, "eta")) then SparPointFromEta(r1, path, xsi)
    else SparPointFromUid(r1, path, xsi, query)
  }

  /** The branch with an eta child: eta is taken out and the sparPoint
      written with the nearest uID. */
  function SparPointFromEta(root: Element, path: string, xsi: string): Option<Element>
  {
    var eta :- GetDoubleElement(root, Sub(path, "eta")).ToOption();
    var r2 :- Removed(root, Sub(path, "eta"));
    var uid :- FindNearestCsOrTedUid(r2, path).ToOption();
    RelHeightPointWritten(r2, path, "sparPoint", eta, xsi, uid)
  }

  /** The branch without one: the elementUID becomes the sparPoint, which
      then gets the xsi. */
  function SparPointFromUid(root: Element, path: string, xsi: string, query: (Element, string) -> seq<string>)
    : Option<Element>
  {
    var r2 :- ElementUidConverted(root, Sub(path, "elementUID"), "sparPoint", query);
    Appended(r2, Sub(path, "sparPoint"), "xsi", xsi)
  }

  /** One pass of the sparPosition loop of convertEtaXsiRelHeightPoints. */
  method ConvertSparPosition(tixi: Handle, path: string, query: (Element, string) -> seq<string>)
    returns (r: Result<()>)
    modifies tixi
    ensures r.Ok? <==> SparPositionConverted(old(tixi.root), path, query).Some?
    ensures r.Ok? ==> tixi.root == SparPositionConverted(old(tixi.root), path, query).value
  {
    var xsi :- GetDoubleElement(tixi.root, Sub(path, "xsi"));
    var _ :- tixi.RemoveElement(Sub(path, "xsi"));
    if CheckElement(tixi.root, Sub(path, "eta")) {
      r := WriteSparPointFromEta(tixi, path, xsi);
    } else {
      r := WriteSparPointFromUid(tixi, path, xsi, query);
    }
  }

  method WriteSparPointFromEta(tixi: Handle, path: string, xsi: string) returns (r: Result<()>)
    modifies tixi
    ensures r.Ok? <==> SparPointFromEta(old(tixi.root), path, xsi).Some?
    ensures r.Ok? ==> tixi.root == SparPointFromEta(old(tixi.root), path, xsi).value
  {
    var eta :- GetDoubleElement(tixi.root, Sub(path, "eta"));
    var _ :- tixi.RemoveElement(Sub(path, "eta"));
    var uid :- FindNearestCsOrTedUid(tixi.root, path);
    r := WriteRelHeightPoint(tixi, path, "sparPoint", eta, xsi, uid);
  }

  method WriteSparPointFromUid(tixi: Handle, path: string, xsi: string, query: (Element, string) -> seq<string>)
    returns (r: Result<()>)
    modifies tixi
    ensures r.Ok? <==> SparPointFromUid(old(tixi.root), path, xsi, query).Some?
    ensures r.Ok? ==> tixi.root == SparPointFromUid(old(tixi.root), path, xsi, query).value
  {
    PointNamesValid();
    ghost var root0 := tixi.root;
    var _ :- ConvertElementUid(tixi, Sub(path, "elementUID"), "sparPoint", query);
    assert SparPointFromUid(root0, path, xsi, query) == Appended(tixi.root, Sub(path, "sparPoint"), "xsi", xsi);
    r := tixi.AddDoubleElement(Sub(path, "sparPoint"), "xsi", xsi);
  }

  /** A spar position with one numeric xsi, one numeric eta and no
      sparPoint child, inside a component segment or trailing edge device
      with a uID, loses its xsi and eta children and gains a sparPoint
      holding the two values and that uID; nothing else changes. */
  lemma SparPositionExplicit(root: Element, path: string, query: (Element, string) -> seq<string>)
    requires Resolve(root, path).Some?
    requires var ns := Names(At(root, Resolve(root, path).value).children);
      CountNamed(ns, "xsi") == 1 && CountNamed(ns, "eta") == 1 && CountNamed(ns, "sparPoint") == 0
    requires GetDoubleElement(root, Sub(path, "xsi")).Ok? && GetDoubleElement(root, Sub(path, "eta")).Ok?
    requires FindNearestCsOrTedUid(root, path).Ok?
    ensures var pos := Resolve(root, path).value;
      var e := At(root, pos);
      var point := RelHeightPoint("sparPoint", GetDoubleElement(root, Sub(path, "eta")).value,
                                  GetDoubleElement(root, Sub(path, "xsi")).value,
                                  FindNearestCsOrTedUid(root, path).value);
      SparPositionConverted(root, path, query)
        == Some(Put(root, pos, e.(children := Drop(Drop(e.children, "xsi"), "eta") + [point])))
  {
    var pos := Resolve(root, path).value;
    var e := At(root, pos);
    var e2 := e.(children := Drop(Drop(e.children, "xsi"), "eta"));
    var r2 := Put(root, pos, e2);
    var eta := GetDoubleElement(root, Sub(path, "eta")).value;
    var xsi := GetDoubleElement(root, Sub(path, "xsi")).value;
    var uid := FindNearestCsOrTedUid(root, path).value;
    EtaXsiRemovals(root, path, "sparPoint");
    FindNearestAfter(root, path, pos, e2);
    PointNameValid("sparPoint");
    RelHeightPointAppended(r2, path, "sparPoint", eta, xsi, uid);
    PutPut(root, pos, e2, AppendChild(e2, RelHeightPoint("sparPoint", eta, xsi, uid)));
    var r1 := Put(root, pos, e.(children := Drop(e.children, "xsi")));
    var final := Put(root, pos, AppendChild(e2, RelHeightPoint("sparPoint", eta, xsi, uid)));
    assert RelHeightPointWritten(r2, path, "sparPoint", eta, xsi, uid) == Some(final);
    assert SparPositionConverted(root, path, query) == RelHeightPointWritten(r2, path, "sparPoint", eta, xsi, uid);
    assert AppendChild(e2, RelHeightPoint("sparPoint", eta, xsi, uid))
        == e.(children := Drop(Drop(e.children, "xsi"), "eta") + [RelHeightPoint("sparPoint", eta, xsi, uid)]);
  }

  /** The reads and removals of the explicit cases: the xsi and the eta
      are read, then both elements are gone. */
  lemma EtaXsiRemovals(root: Element, path: string, point: string)
    requires Resolve(root, path).Some? && point != "xsi" && point != "eta"
    requires var ns := Names(At(root, Resolve(root, path).value).children);
      CountNamed(ns, "xsi") == 1 && CountNamed(ns, "eta") == 1 && CountNamed(ns, point) == 0
    ensures var pos := Resolve(root, path).value;
      var e := At(root, pos);
      var e1 := e.(children := Drop(e.children, "xsi"));
      var r1 := Put(root, pos, e1);
      var e2 := e.(children := Drop(Drop(e.children, "xsi"), "eta"));
      && Removed(root, Sub(path, "xsi")) == Some(r1)
      && CheckElement(r1, Sub(path, "eta"))
      && GetDoubleElement(r1, Sub(path, "eta")) == GetDoubleElement(root, Sub(path, "eta"))
      && Removed(r1, Sub(path, "eta")) == Some(Put(root, pos, e2))
      && Resolve(Put(root, pos, e2), path) == Some(pos)
      && At(Put(root, pos, e2), pos) == e2
      && CheckElement(root, Sub(path, "xsi"))
      && CountNamed(Names(e2.children), point) == 0
  {
    var pos := Resolve(root, path).value;
    var e := At(root, pos);
    PointNamesValid();
    RemovedSoleChild(root, path, "xsi");
    var e1 := e.(children := Drop(e.children, "xsi"));
    var r1 := Put(root, pos, e1);
    AtPut(root, pos, e1);
    DropCount(e.children, "xsi", "eta");
    DropCount(e.children, "xsi", point);
    RemovedSoleChild(r1, path, "eta");
    ValuesSurvive(root, path, e1);
    var e2 := e1.(children := Drop(e1.children, "eta"));
    PutPut(root, pos, e1, e2);
    AtPut(root, pos, e2);
    DropCount(e1.children, "eta", point);
  }

  /** The eta value reads the same once the xsi is gone. */
  lemma ValuesSurvive(root: Element, path: string, e1: Element)
    requires Resolve(root, path).Some?
    requires var e := At(root, Resolve(root, path).value);
      e1 == e.(children := Drop(e.children, "xsi")) && CountNamed(Names(e.children), "eta") == 1
    requires ValidName("eta") && ValidName("xsi")
    ensures var pos := Resolve(root, path).value;
      GetDoubleElement(Put(root, pos, e1), Sub(path, "eta")) == GetDoubleElement(root, Sub(path, "eta"))
  {
    var pos := Resolve(root, path).value;
    var e := At(root, pos);
    var r1 := Put(root, pos, e1);
    ResolvePut(root, path, pos, e1);
    AtPut(root, pos, e1);
    DropCount(e.children, "xsi", "eta");
    ResolveChild(root, path, "eta");
    ResolveChild(r1, path, "eta");
    var i := NthNamed(Names(e.children), "eta", 1);
    var j := NthNamed(Names(e1.children), "eta", 1);
    ValidPosAppend(root, pos, [i]);
    ValidPosAppend(r1, pos, [j]);
    SoleNamedSame(e.children, e1.children, "eta", i, j);
  }

  /** When each of two child lists holds one element called n, and every
      element of the second is one of the first, those elements agree. */
  lemma SoleNamedSame(cs: seq<Element>, ds: seq<Element>, n: string, i: nat, j: nat)
    requires ds == Drop(cs, "xsi") && n != "xsi"
    requires i < |cs| && cs[i].name == n && CountNamed(Names(cs), n) == 1
    requires j < |ds| && ds[j].name == n
    ensures ds[j] == cs[i]
  {
    DropIn(cs, "xsi", j);
    var k :| 0 <= k < |cs| && cs[k] == ds[j];
    if k != i {
      TwoNamed(Names(cs), n, i, k);
    }
  }

  lemma {:induction false} DropIn(cs: seq<Element>, n: string, j: nat)
    requires j < |Drop(cs, n)|
    ensures exists k :: 0 <= k < |cs| && cs[k] == Drop(cs, n)[j]
  {
    var h := if cs[0].name == n then [] else [cs[0]];
    assert Drop(cs, n) == h + Drop(cs[1..], n);
    if j < |h| {
      assert cs[0] == Drop(cs, n)[j];
    } else {
      DropIn(cs[1..], n, j - |h|);
      var k :| 0 <= k < |cs[1..]| && cs[1..][k] == Drop(cs[1..], n)[j - |h|];
      assert cs[k + 1] == Drop(cs, n)[j];
    }
  }

  /** The uID search reads the same after an edit of the element the path
      leads to: it only reads the enclosing component segment or trailing
      edge device. */
  lemma FindNearestAfter(root: Element, path: string, pos: seq<nat>, x: Element)
    requires Resolve(root, path) == Some(pos)
    requires FindNearestCsOrTedUid(root, path).Ok?
    ensures FindNearestCsOrTedUid(Put(root, pos, x), path) == FindNearestCsOrTedUid(root, path)
  {
    var c := CsOrTedPath(path).value;
    ResolveCut(root, path, |c|);
    var cpos := Resolve(root, c).value;
    ResolveAbove(root, c, pos, x);
    AtPutOther(root, pos, x, cpos);
  }

  // ----- stringers ----------------------------------------------------------------

  /** An optional value child: "0" (0.0 as "%g" writes it) and the
      document unchanged when there is none, else its number and the
      document without it. */
  function TakeNumber(root: Element, p: string): Option<(string, Element)>
  {
    if !CheckElement(root, p) then Some(("0", root))
    else
      var v :- GetDoubleElement(root, p).ToOption();
      var r :- Removed(root, p);
      Some((v, r))
  }

  method TakeOptionalNumber(tixi: Handle, p: string) returns (r: Result<string>)
    modifies tixi
    ensures r.Ok? <==> TakeNumber(old(tixi.root), p).Some?
    ensures r.Ok? ==> r.value == TakeNumber(old(tixi.root), p).value.0
    ensures r.Ok? ==> tixi.root == TakeNumber(old(tixi.root), p).value.1
  {
    var v := "0";
    if CheckElement(tixi.root, p) {
      v :- GetDoubleElement(tixi.root, p);
      var _ :- tixi.RemoveElement(p);
    }
    return Ok(v);
  }

  /** The document after one pass of the stringer loop, or None where the
      Python code raises: a stringer without pitch is skipped. */
  function StringerConverted(root: Element, path: string): (r: Option<Element>)
  {
    if !CheckElement(root, Sub(path, "pitch")) then Some(root)
    else
      var x :- TakeNumber(root, Sub(path, "xsi"));
      var e :- TakeNumber(x.1, Sub(path, "eta"));
      var uid :- FindNearestCsOrTedUid(e.1, path).ToOption();
      RelHeightPointWritten(e.1, path, "refPoint", e.0, x.0, uid)
  }

  /** One pass of the stringer loop of convertEtaXsiRelHeightPoints. */
  method ConvertStringer(tixi: Handle, path: string) returns (r: Result<()>)
    modifies tixi
    ensures r.Ok? <==> StringerConverted(old(tixi.root), path).Some?
    ensures r.Ok? ==> tixi.root == StringerConverted(old(tixi.root), path).value
  {
    if !CheckElement(tixi.root, Sub(path, "pitch")) {
      return Ok(());
    }
    var xsi :- TakeOptionalNumber(tixi, Sub(path, "xsi"));
    var eta :- TakeOptionalNumber(tixi, Sub(path, "eta"));
    var uid :- FindNearestCsOrTedUid(tixi.root, path);
    r := WriteRelHeightPoint(tixi, path, "refPoint", eta, xsi, uid);
  }

  /** A stringer without a pitch is explicit and stays as it is. */
  lemma StringerWithoutPitch(root: Element, path: string)
    requires !CheckElement(root, Sub(path, "pitch"))
    ensures StringerConverted(root, path) == Some(root)
  {
  }

  /** A stringer with a pitch but no xsi or eta gets a refPoint at eta 0,
      xsi 0 and the nearest uID, appended as its last child. */
  lemma StringerDefaults(root: Element, path: string)
    requires Resolve(root, path).Some? && CheckElement(root, Sub(path, "pitch"))
    requires var ns := Names(At(root, Resolve(root, path).value).children);
      CountNamed(ns, "xsi") == 0 && CountNamed(ns, "eta") == 0 && CountNamed(ns, "refPoint") == 0
    requires FindNearestCsOrTedUid(root, path).Ok?
    ensures var pos := Resolve(root, path).value;
      StringerConverted(root, path)
        == Some(Put(root, pos, AppendChild(At(root, pos),
                    RelHeightPoint("refPoint", "0", "0", FindNearestCsOrTedUid(root, path).value))))
  {
    PointNamesValid();
    PointNameValid("refPoint");
    ResolveChild(root, path, "xsi");
    ResolveChild(root, path, "eta");
    assert TakeNumber(root, Sub(path, "xsi")) == Some(("0", root));
    assert TakeNumber(root, Sub(path, "eta")) == Some(("0", root));
    var uid := FindNearestCsOrTedUid(root, path).value;
    RelHeightPointAppended(root, path, "refPoint", "0", "0", uid);
    assert StringerConverted(root, path) == RelHeightPointWritten(root, path, "refPoint", "0", "0", uid);
  }

  /** A stringer with a pitch, one numeric xsi, one numeric eta and no
      refPoint loses its xsi and eta and gains a refPoint holding them and
      the nearest uID, as its last child. */
  lemma StringerExplicitValues(root: Element, path: string)
    requires Resolve(root, path).Some? && CheckElement(root, Sub(path, "pitch"))
    requires var ns := Names(At(root, Resolve(root, path).value).children);
      CountNamed(ns, "xsi") == 1 && CountNamed(ns, "eta") == 1 && CountNamed(ns, "refPoint") == 0
    requires GetDoubleElement(root, Sub(path, "xsi")).Ok? && GetDoubleElement(root, Sub(path, "eta")).Ok?
    requires FindNearestCsOrTedUid(root, path).Ok?
    ensures var pos := Resolve(root, path).value;
      var e := At(root, pos);
      var point := RelHeightPoint("refPoint", GetDoubleElement(root, Sub(path, "eta")).value,
                                  GetDoubleElement(root, Sub(path, "xsi")).value,
                                  FindNearestCsOrTedUid(root, path).value);
      StringerConverted(root, path)
        == Some(Put(root, pos, e.(children := Drop(Drop(e.children, "xsi"), "eta") + [point])))
  {
    var pos := Resolve(root, path).value;
    var e := At(root, pos);
    var e2 := e.(children := Drop(Drop(e.children, "xsi"), "eta"));
    var r1 := Put(root, pos, e.(children := Drop(e.children, "xsi")));
    var r2 := Put(root, pos, e2);
    var eta := GetDoubleElement(root, Sub(path, "eta")).value;
    var xsi := GetDoubleElement(root, Sub(path, "xsi")).value;
    var uid := FindNearestCsOrTedUid(root, path).value;
    EtaXsiRemovals(root, path, "refPoint");
    assert TakeNumber(root, Sub(path, "xsi")) == Some((xsi, r1));
    assert TakeNumber(r1, Sub(path, "eta")) == Some((eta, r2));
    FindNearestAfter(root, path, pos, e2);
    PointNameValid("refPoint");
    RelHeightPointAppended(r2, path, "refPoint", eta, xsi, uid);
    PutPut(root, pos, e2, AppendChild(e2, RelHeightPoint("refPoint", eta, xsi, uid)));
    var final := Put(root, pos, AppendChild(e2, RelHeightPoint("refPoint", eta, xsi, uid)));
    assert RelHeightPointWritten(r2, path, "refPoint", eta, xsi, uid) == Some(final);
    assert StringerConverted(root, path) == RelHeightPointWritten(r2, path, "refPoint", eta, xsi, uid);
    assert AppendChild(e2, RelHeightPoint("refPoint", eta, xsi, uid))
        == e.(children := Drop(Drop(e.children, "xsi"), "eta") + [RelHeightPoint("refPoint", eta, xsi, uid)]);
  }

  // ----- the whole conversion -----------------------------------------------------

  function SparStep(query: (Element, string) -> seq<string>): (Element, string) -> Option<Element>
  {
    (root, path) => SparPositionConverted(root, path, query)
  }

  function StringerStep(): (Element, string) -> Option<Element>
  {
    (root, path) => StringerConverted(root, path)
  }

  /** The document after convertEtaXsiRelHeightPoints: the spar positions,
      then the stringers found in the document the first loop left. */
  function EtaXsiRelHeightPoints(root: Element, query: (Element, string) -> seq<string>): Option<Element>
  {
    var r1 :- Fold(root, query(root, SparPositionXpath), SparStep(query));
    Fold(r1, query(r1, StringerXpath), StringerStep())
  }

  method ConvertSparPositions(tixi: Handle, paths: seq<string>, query: (Element, string) -> seq<string>)
    returns (r: Result<()>)
    modifies tixi
    ensures r.Ok? <==> Fold(old(tixi.root), paths, SparStep(query)).Some?
    ensures r.Ok? ==> tixi.root == Fold(old(tixi.root), paths, SparStep(query)).value
  {
    ghost var root0 := tixi.root;
    for i := 0 to |paths|
      invariant Fold(root0, paths[..i], SparStep(query)) == Some(tixi.root)
    {
      assert paths[..i + 1][..i] == paths[..i];
      var s := ConvertSparPosition(tixi, paths[i], query);
      if s.Err? {
        FoldFails(root0, paths, i, SparStep(query));
        return Err(s.error);
      }
    }
    assert paths[..|paths|] == paths;
    return Ok(());
  }

  method ConvertStringers(tixi: Handle, paths: seq<string>) returns (r: Result<()>)
    modifies tixi
    ensures r.Ok? <==> Fold(old(tixi.root), paths, StringerStep()).Some?
    ensures r.Ok? ==> tixi.root == Fold(old(tixi.root), paths, StringerStep()).value
  {
    ghost var root0 := tixi.root;
    for i := 0 to |paths|
      invariant Fold(root0, paths[..i], StringerStep()) == Some(tixi.root)
    {
      assert paths[..i + 1][..i] == paths[..i];
      var s := ConvertStringer(tixi, paths[i]);
      if s.Err? {
        FoldFails(root0, paths, i, StringerStep());
        return Err(s.error);
      }
    }
    assert paths[..|paths|] == paths;
    return Ok(());
  }

  /** convertEtaXsiRelHeightPoints */
  method ConvertEtaXsiRelHeightPoints(tixi: Handle, query: (Element, string) -> seq<string>) returns (r: Result<()>)
    modifies tixi
    ensures r.Ok? <==> EtaXsiRelHeightPoints(old(tixi.root), query).Some?
    ensures r.Ok? ==> tixi.root == EtaXsiRelHeightPoints(old(tixi.root), query).value
  {
    var _ :- ConvertSparPositions(tixi, query(tixi.root, SparPositionXpath), query);
    r := ConvertStringers(tixi, query(tixi.root, StringerXpath));
  }
}
