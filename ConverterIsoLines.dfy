/** The eta/xsi conversions of the converter: a scalar eta or xsi value
    becomes an iso line (the value plus the uID of the component segment
    or trailing edge device it is measured on), and an elementUID becomes
    an eta iso line on the wing segment that references the element. */
module ConverterIsoLines {
  import opened Wrappers
  import opened Text
  import opened Paths
  import opened Xml
  import opened Tixi
  import opened TixiHelper
  import opened Edits

  // ----- the nearest component segment or trailing edge device -------------

  const CsStep: string := "componentSegment"
  const TedStep: string := "trailingEdgeDevice"

  /** s holds w from index i on. */
  predicate HasAt(s: string, i: nat, w: string)
  {
    i + |w| <= |s| && s[i..i + |w|] == w
  }

  /** The end of the run of decimal digits that starts at i. */
  function DigitsEnd(s: string, i: nat): (r: nat)
    requires i <= |s|
    ensures i <= r <= |s| && AllDigits(s[i..r]) && (r == |s| || !IsDigit(s[r]))
    decreases |s| - i
  {
    if i < |s| && IsDigit(s[i]) then
      var r := DigitsEnd(s, i + 1);
      assert s[i..r] == [s[i]] + s[i + 1..r];
      r
    else i
  }

  /** Where a match of "(componentSegment|trailingEdgeDevice)(\[\d+\])?/"
      that starts at i ends, if one does. The group is greedy: "[digits]"
      is taken when a ']' and a '/' follow the digits; without it the
      name must be followed by '/' directly. */
  function MatchAt(s: string, i: nat): (r: Option<nat>)
    ensures r.Some? ==> i + 1 < r.value <= |s| && s[r.value - 1] == '/'
  {
    var j := if HasAt(s, i, CsStep) then i + |CsStep| else if HasAt(s, i, TedStep) then i + |TedStep| else 0;
    if j == 0 then None
    else if j < |s| && s[j] == '/' then Some(j + 1)
    else if j < |s| && s[j] == '[' then
      var k := DigitsEnd(s, j + 1);
      if k > j + 1 && k + 1 < |s| && s[k] == ']' && s[k + 1] == '/' then Some(k + 2) else None
    else None
  }

  /** The ends of the matches re.finditer finds from position `from` on:
      after a match the search resumes where it ended. */
  function MatchEnds(s: string, from: nat): (es: seq<nat>)
    ensures forall k :: 0 <= k < |es| ==> from < es[k] <= |s| && 1 < es[k] && s[es[k] - 1] == '/'
    decreases |s| - from + 1
  {
    if from > |s| then []
    else
      match MatchAt(s, from)
      case Some(e) => [e] + MatchEnds(s, e)
      case None => MatchEnds(s, from + 1)
  }

  /** No match starts at or after position from. */
  ghost predicate NoMatchFrom(s: string, from: nat)
  {
    forall i: nat :: from <= i ==> MatchAt(s, i).None?
  }

  /** What the last match found from position from says: none when there
      is no match at or after from; otherwise a match that ends where it
      ends starts at or after from, and none starts at or after its end. */
  ghost predicate LastMatchFacts(s: string, from: nat)
  {
    var es := MatchEnds(s, from);
    && (es == [] ==> NoMatchFrom(s, from))
    && (es != [] ==>
          && (exists i: nat :: from <= i < es[|es| - 1] && MatchAt(s, i) == Some(es[|es| - 1]))
          && NoMatchFrom(s, es[|es| - 1]))
  }

  /** The last match re.finditer finds is the last match anywhere. */
  lemma {:induction false} LastMatchInnermost(s: string, from: nat)
    ensures LastMatchFacts(s, from)
    decreases |s| - from + 1
  {
    if from > |s| {
      forall i: nat | from <= i ensures MatchAt(s, i).None? {
        NoMatchPastEnd(s, i);
      }
    } else {
      match MatchAt(s, from)
      case Some(e) =>
        LastMatchInnermost(s, e);
        LastMatchAfterMatch(s, from, e);
      case None =>
        LastMatchInnermost(s, from + 1);
        LastMatchAfterMiss(s, from);
    }
  }

  /** A match at from ends before the matches found after it. */
  lemma LastMatchAfterMatch(s: string, from: nat, e: nat)
    requires from <= |s| && MatchAt(s, from) == Some(e) && LastMatchFacts(s, e)
    ensures LastMatchFacts(s, from)
  {
    var rest := MatchEnds(s, e);
    assert MatchEnds(s, from) == [e] + rest;
    if rest == [] {
      OnlyMatch(s, from, e);
    } else {
      MatchBeforeLast(s, from, e);
    }
  }

  /** The match at from is the last one: nothing starts after its end. */
  lemma OnlyMatch(s: string, from: nat, e: nat)
    requires from <= |s| && MatchAt(s, from) == Some(e)
    requires MatchEnds(s, from) == [e] && NoMatchFrom(s, e)
    ensures LastMatchFacts(s, from)
  {
    assert from < e && MatchAt(s, from) == Some(e);
  }

  /** The match at from is followed by others: the last of those is the
      last one found from from. */
  lemma MatchBeforeLast(s: string, from: nat, e: nat)
    requires from <= |s| && MatchAt(s, from) == Some(e) && LastMatchFacts(s, e)
    requires MatchEnds(s, e) != [] && MatchEnds(s, from) == [e] + MatchEnds(s, e)
    ensures LastMatchFacts(s, from)
  {
    var rest := MatchEnds(s, e);
    var last := rest[|rest| - 1];
    assert MatchEnds(s, from)[|MatchEnds(s, from)| - 1] == last;
    var i0: nat :| e <= i0 < last && MatchAt(s, i0) == Some(last);
    assert from <= i0;
  }

  /** No match at from: the search moves one position on. */
  lemma LastMatchAfterMiss(s: string, from: nat)
    requires from <= |s| && MatchAt(s, from).None? && LastMatchFacts(s, from + 1)
    ensures LastMatchFacts(s, from)
  {
    var es := MatchEnds(s, from);
    assert es == MatchEnds(s, from + 1);
    if es == [] {
      assert NoMatchFrom(s, from + 1);
      forall i: nat | from <= i ensures MatchAt(s, i).None? {
        if i > from {
          assert from + 1 <= i;
        }
      }
    } else {
      var last := es[|es| - 1];
      var i0: nat :| from + 1 <= i0 < last && MatchAt(s, i0) == Some(last);
      assert from <= i0;
    }
  }

  lemma NoMatchPastEnd(s: string, i: nat)
    requires i > |s|
    ensures MatchAt(s, i).None?
  {
  }

  /** The path of the innermost enclosing component segment or trailing
      edge device: the input up to, without, the '/' that ends the last
      match. */
  function CsOrTedPath(xpath: string): (r: Option<string>)
    ensures r.Some? ==> 0 < |r.value| < |xpath| && r.value == xpath[..|r.value|] && xpath[|r.value|] == '/'
  {
    var es := MatchEnds(xpath, 0);
    if es == [] then None else Some(xpath[..es[|es| - 1] - 1])
  }

  /** The path found ends in the last step of the input that reads
      componentSegment or trailingEdgeDevice (with or without an index)
      and is followed by '/': every later position starts no such step. */
  lemma CsOrTedPathSpec(xpath: string)
    ensures CsOrTedPath(xpath).None? <==> NoMatchFrom(xpath, 0)
    ensures CsOrTedPath(xpath).Some? ==>
      var c := CsOrTedPath(xpath).value;
      && (exists i: nat :: i <= |c| && MatchAt(xpath, i) == Some(|c| + 1))
      && NoMatchFrom(xpath, |c| + 1)
  {
    LastMatchInnermost(xpath, 0);
    CsOrTedPathEnd(xpath);
    var es := MatchEnds(xpath, 0);
    if es != [] {
      var e := es[|es| - 1];
      var i0: nat :| i0 < e && MatchAt(xpath, i0) == Some(e);
      assert !NoMatchFrom(xpath, 0) by {
        assert MatchAt(xpath, i0).Some?;
      }
    }
  }

  /** The path found stops just before the end of the last match. */
  lemma CsOrTedPathEnd(xpath: string)
    ensures var es := MatchEnds(xpath, 0);
      && (CsOrTedPath(xpath).None? <==> es == [])
      && (CsOrTedPath(xpath).Some? ==> |CsOrTedPath(xpath).value| + 1 == es[|es| - 1])
  {
  }

  /** findNearestCsOrTedUid: the uID of that element; an error when the
      path has no such step (Python's [-1] on an empty list). */
  function FindNearestCsOrTedUid(root: Element, xpath: string): (r: Result<string>)
    ensures r.Ok? <==> CsOrTedPath(xpath).Some? && CheckAttribute(root, CsOrTedPath(xpath).value, "uID")
  {
    match CsOrTedPath(xpath)
    case None => Err(NoCsOrTedAncestor(xpath))
    case Some(c) => GetTextAttribute(root, c, "uID")
  }

  // ----- recreating an element at its place ------------------------------------

  /** When a path's last step is a plain name, element_index finds the
      element itself (it is the only child of that name), and removing the
      element and creating an empty one of that name at that index puts
      the new element where the old one was. */
  lemma RecreateInPlace(root: Element, path: string)
    requires Resolve(root, path).Some? && Resolve(root, path).value != []
    requires ValidName(ElementName(path))
    ensures var pos := Resolve(root, path).value;
      var pp := ParentPos(pos);
      var d := Detach(root, pos);
      && At(root, pos).name == ElementName(path)
      && Resolve(root, ParentPath(path)) == Some(pp)
      && IndexByName(At(root, pp).children, ElementName(path)) == Last(pos) + 1
      && Resolve(d, ParentPath(path)) == Some(pp)
      && Last(pos) + 1 <= |At(d, pp).children| + 1
      && Put(d, pp, InsertChild(At(d, pp), Last(pos), Leaf(ElementName(path), "")))
         == Put(root, pos, Leaf(ElementName(path), ""))
  {
    var pos := Resolve(root, path).value;
    var pp := ParentPos(pos);
    var name := ElementName(path);
    ResolveParent(root, path);
    ParsePlainStep(name);
    var cs := At(root, pp).children;
    var ns := Names(cs);
    var l := Last(pos);
    assert Select(cs, Child(name)) == Some(l);
    assert CountNamed(ns, name) == 1 && l == NthNamed(ns, name, 1);
    CountNamedZero(ns[..l], name);
    forall j | 0 <= j < l ensures cs[j].name != name {
      assert ns[..l][j] == cs[j].name;
    }
    assert IsElementIndex(cs, name, l + 1);
    ElementIndexUnique(cs, name, l + 1, IndexByName(cs, name));
    DetachInsert(root, pos, Leaf(name, ""));
    ParentPosValid(root, pos);
    ResolvePut(root, ParentPath(path), pp, RemoveChild(At(root, pp), l));
  }

  /** Replacing the element at pos by x, then appending y to it, replaces
      it by x with y appended. */
  lemma ReplaceThenAppend(root: Element, path: string, x: Element, y: Element)
    requires Resolve(root, path).Some?
    requires x.name == At(root, Resolve(root, path).value).name
    ensures var pos := Resolve(root, path).value;
      var r1 := Put(root, pos, x);
      && Resolve(r1, path) == Some(pos)
      && Put(r1, pos, AppendChild(At(r1, pos), y)) == Put(root, pos, AppendChild(x, y))
  {
    var pos := Resolve(root, path).value;
    ReplaceResolves(root, path, x);
    PutPut(root, pos, x, AppendChild(x, y));
  }

  // ----- eta/xsi values become iso lines ----------------------------------------

  /** The iso line that replaces a scalar eta or xsi value: the element
      keeps its name, loses its text and attributes, and holds the value
      under eName and the uID of the nearest component segment or
      trailing edge device under referenceUID. */
  function IsoLineElement(name: string, eName: string, value: string, uid: string): Element
  {
    Element(name, map[], "", [Leaf(eName, value), Leaf("referenceUID", uid)])
  }

  /** The document after convertIsoLineCoords has handled one path, or
      None where the Python code raises. */
  function IsoLine(root: Element, path: string, eName: string): Option<Element>
  {
    var uid :- FindNearestCsOrTedUid(root, path).ToOption();
    var value :- GetDoubleElement(root, path).ToOption();
    var pos := Resolve(root, path).value;
    if pos == [] || !ValidName(ElementName(path)) || !ValidName(eName) then None
    else Some(Put(root, pos, IsoLineElement(At(root, pos).name, eName, value, uid)))
  }

  /** When IsoLine succeeds, and what it yields, in terms of the reads. */
  lemma IsoLineCases(root: Element, path: string, eName: string)
    ensures IsoLine(root, path, eName).Some? <==>
      && FindNearestCsOrTedUid(root, path).Ok?
      && GetDoubleElement(root, path).Ok?
      && Resolve(root, path).value != []
      && ValidName(ElementName(path)) && ValidName(eName)
    ensures IsoLine(root, path, eName).Some? ==>
      var pos := Resolve(root, path).value;
      IsoLine(root, path, eName).value
        == Put(root, pos, IsoLineElement(At(root, pos).name, eName,
                                         GetDoubleElement(root, path).value,
                                         FindNearestCsOrTedUid(root, path).value))
  {
  }

  /** After the conversion the path still leads to the element, which is
      now empty of text and holds the value, readable again as a number,
      and the uID of the nearest component segment or trailing edge
      device. */
  lemma IsoLineReadBack(root: Element, path: string, eName: string)
    requires IsoLine(root, path, eName).Some? && eName != "referenceUID"
    ensures var r := IsoLine(root, path, eName).value;
      && Resolve(r, path) == Resolve(root, path)
      && GetTextElement(r, path) == Ok("")
      && GetNumberOfChilds(r, path) == Ok(2)
      && GetDoubleElement(r, path + "/" + eName) == GetDoubleElement(root, path)
      && GetTextElement(r, path + "/" + "referenceUID") == FindNearestCsOrTedUid(root, path)
  {
    IsoLineCases(root, path, eName);
    var r := IsoLine(root, path, eName).value;
    var pos := Resolve(root, path).value;
    var value := GetDoubleElement(root, path).value;
    var uid := FindNearestCsOrTedUid(root, path).value;
    var x := IsoLineElement(At(root, pos).name, eName, value, uid);
    ReplaceResolves(root, path, x);
    ReferenceUidIsName();
    SoleChild(r, path, 0, eName);
    SoleChild(r, path, 1, "referenceUID");
  }

  /** The i-th child of the element a path leads to, when it is the only
      child of its name, is reached by appending its name. */
  lemma SoleChild(r: Element, path: string, i: nat, name: string)
    requires Resolve(r, path).Some? && ValidName(name)
    requires var cs := At(r, Resolve(r, path).value).children;
      i < |cs| && cs[i].name == name && forall j :: 0 <= j < |cs| && j != i ==> cs[j].name != name
    ensures var pos := Resolve(r, path).value;
      && Resolve(r, path + "/" + name) == Some(pos + [i])
      && At(r, pos + [i]) == At(r, pos).children[i]
  {
    var pos := Resolve(r, path).value;
    var cs := At(r, pos).children;
    var ns := Names(cs);
    CountAround(ns, name, i);
    CountNamedZero(ns[..i], name);
    CountNamedZero(ns[i + 1..], name);
    assert name !in ns[..i] by {
      forall j | 0 <= j < i ensures ns[..i][j] != name { assert ns[..i][j] == cs[j].name; }
    }
    assert name !in ns[i + 1..] by {
      var tail := ns[i + 1..];
      forall j | 0 <= j < |tail| ensures tail[j] != name { assert tail[j] == cs[i + 1 + j].name; }
    }
    ResolveChild(r, path, name);
    ValidPosAppend(r, pos, [i]);
  }

  /** Converting the same path a second time fails: the element has no
      number left to read. */
  lemma IsoLineNotRepeatable(root: Element, path: string, eName: string, eName2: string)
    requires IsoLine(root, path, eName).Some?
    ensures IsoLine(IsoLine(root, path, eName).value, path, eName2).None?
  {
    IsoLineCases(root, path, eName);
    var pos := Resolve(root, path).value;
    var x := IsoLineElement(At(root, pos).name, eName, GetDoubleElement(root, path).value,
                            FindNearestCsOrTedUid(root, path).value);
    ReplaceResolves(root, path, x);
  }

  /** Elements off the line from the root to the converted element, and
      not below it, are untouched; those on that line keep their name,
      attributes and text. */
  lemma IsoLineElsewhere(root: Element, path: string, eName: string, q: seq<nat>)
    requires IsoLine(root, path, eName).Some? && ValidPos(root, q)
    requires q != Resolve(root, path).value && !StrictPrefix(Resolve(root, path).value, q)
    ensures var r := IsoLine(root, path, eName).value;
      && ValidPos(r, q)
      && At(r, q).name == At(root, q).name
      && At(r, q).attrs == At(root, q).attrs
      && At(r, q).text == At(root, q).text
      && (!StrictPrefix(q, Resolve(root, path).value) ==> At(r, q) == At(root, q))
  {
    IsoLineCases(root, path, eName);
    var pos := Resolve(root, path).value;
    var x := IsoLineElement(At(root, pos).name, eName, GetDoubleElement(root, path).value,
                            FindNearestCsOrTedUid(root, path).value);
    AtPutOther(root, pos, x, q);
  }

  lemma ReferenceUidIsName()
    ensures ValidName("referenceUID")
  {
  }

  lemma EtaIsName()
    ensures ValidName("eta")
  {
  }

  /** The two children appended one after the other make the iso line. */
  lemma IsoLineBuilt(name: string, eName: string, value: string, uid: string)
    ensures AppendChild(AppendChild(Leaf(name, ""), Leaf(eName, value)), Leaf("referenceUID", uid))
      == IsoLineElement(name, eName, value, uid)
  {
  }

  /** One step of convertIsoLineCoords: read the uID and the value,
      remove the element, create an empty one at the same index, and add
      the value and the referenceUID. */
  method ConvertIsoLine(tixi: Handle, path: string, eName: string) returns (r: Result<()>)
    modifies tixi
    ensures r.Ok? <==> IsoLine(old(tixi.root), path, eName).Some?
    ensures r.Ok? ==> tixi.root == IsoLine(old(tixi.root), path, eName).value
  {
    IsoLineCases(tixi.root, path, eName);
    var uid :- FindNearestCsOrTedUid(tixi.root, path);
    var value :- GetDoubleElement(tixi.root, path);
    if Resolve(tixi.root, path).value == [] {
      RootPathParent(tixi.root, path);
    } else {
      ResolveParent(tixi.root, path);
    }
    var index :- ElementIndex(tixi, path);
    r := RecreateAsIsoLine(tixi, path, index, eName, value, uid);
  }

  /** The edits of that step, once the index is known. */
  method RecreateAsIsoLine(tixi: Handle, path: string, index: nat, eName: string, value: string, uid: string)
    returns (r: Result<()>)
    requires Resolve(tixi.root, path).Some? && Resolve(tixi.root, path).value != []
    requires Resolve(tixi.root, ParentPath(path)).Some?
    requires index == IndexByName(ChildrenAt(tixi.root, ParentPath(path)), ElementName(path))
    modifies tixi
    ensures r.Ok? <==> ValidName(ElementName(path)) && ValidName(eName)
    ensures r.Ok? ==>
      var pos := Resolve(old(tixi.root), path).value;
      tixi.root == Put(old(tixi.root), pos, IsoLineElement(At(old(tixi.root), pos).name, eName, value, uid))
  {
    ghost var root0 := tixi.root;
    ghost var pos := Resolve(root0, path).value;
    var name := ElementName(path);
    if !ValidName(name) {
      var removed := tixi.RemoveElement(path);
      if removed.Err? {
        assert false;
      }
      r := tixi.CreateElementAtIndex(ParentPath(path), name, index);
      return;
    }
    RecreateInPlace(root0, path);
    var removed := tixi.RemoveElement(path);
    if removed.Err? {
      assert false;
    }
    var created := tixi.CreateElementAtIndex(ParentPath(path), name, index);
    if created.Err? {
      assert false;
    }
    ReplaceThenAppend(root0, path, Leaf(name, ""), Leaf(eName, value));
    r := tixi.AddDoubleElement(path, eName, value);
    if r.Err? {
      return;
    }
    ghost var x1 := AppendChild(Leaf(name, ""), Leaf(eName, value));
    ReplaceThenAppend(root0, path, x1, Leaf("referenceUID", uid));
    ReferenceUidIsName();
    var added := tixi.AddTextElement(path, "referenceUID", uid);
    if added.Err? {
      assert false;
    }
    IsoLineBuilt(name, eName, value, uid);
  }

  // ----- elementUIDs become eta iso lines ----------------------------------------

  /** The query for the wing segments whose toElementUID is uid. */
  function ToSegmentQuery(uid: string): string
  {
    "//wing/segments/segment[./toElementUID[text()='" + uid + "']]"
  }

  /** The query for the wing segments whose fromElementUID is uid. */
  function FromSegmentQuery(uid: string): string
  {
    "//wing/segments/segment[./fromElementUID[text()='" + uid + "']]"
  }

  /** The eta ("1" or "0", as "%g" writes 1.0 and 0.0) and the segment uID
      that stand for a section element: the first segment that ends at the
      element, else the first that starts there, else "0" and "TODO". */
  function SegmentReference(root: Element, elementUid: string, query: (Element, string) -> seq<string>)
    : Result<(string, string)>
  {
    var to := query(root, ToSegmentQuery(elementUid));
    if |to| > 0 then
      var uid :- GetTextAttribute(root, to[0], "uID");
      Ok(("1", uid))
    else
      var from := query(root, FromSegmentQuery(elementUid));
      if |from| > 0 then
        var uid :- GetTextAttribute(root, from[0], "uID");
        Ok(("0", uid))
      else Ok(("0", "TODO"))
  }

  /** The document after an empty element eName has been created as the
      index-th child of parentPath and given an eta and a referenceUID. */
  function EtaIsoLineWritten(root: Element, parentPath: string, eName: string, index: int, eta: string, uid: string)
    : Option<Element>
  {
    var d2 :- InsertedAt(root, parentPath, eName, index);
    EtaAndUidWritten(d2, parentPath + "/" + eName, eta, uid)
  }

  /** The document after an eta and a referenceUID have been appended
      to the element at p. */
  function EtaAndUidWritten(root: Element, p: string, eta: string, uid: string): Option<Element>
  {
    var d3 :- Appended(root, p, "eta", eta);
    Appended(d3, p, "referenceUID", uid)
  }

  /** The document after convertElementUidToEtaAndUid, or None where the
      Python code raises. The segments are looked for once the elementUID
      element is gone; the index is the one it had before. */
  function ElementUidConverted(root: Element, xpath: string, eName: string, query: (Element, string) -> seq<string>)
    : Option<Element>
  {
    var elementUid :- GetTextElement(root, xpath).ToOption();
    var pos := Resolve(root, xpath).value;
    if pos == [] then None
    else
      ResolveParent(root, xpath);
      var index := IndexByName(ChildrenAt(root, ParentPath(xpath)), ElementName(xpath));
      var d := Detach(root, pos);
      var ref :- SegmentReference(d, elementUid, query).ToOption();
      EtaIsoLineWritten(d, ParentPath(xpath), eName, index, ref.0, ref.1)
  }

  /** Appending a leaf to the element a path leads to, after that element
      has been replaced, is replacing it by the appended copy; the path
      still leads there. */
  lemma AppendedReplaced(root: Element, pos: seq<nat>, x: Element, path: string, name: string, text: string)
    requires ValidPos(root, pos) && Resolve(Put(root, pos, x), path) == Some(pos) && ValidName(name)
    ensures Appended(Put(root, pos, x), path, name, text) == Some(Put(root, pos, AppendChild(x, Leaf(name, text))))
    ensures Resolve(Put(root, pos, AppendChild(x, Leaf(name, text))), path) == Some(pos)
  {
    var r1 := Put(root, pos, x);
    var x1 := AppendChild(x, Leaf(name, text));
    AtPut(root, pos, x);
    PutPut(root, pos, x, x1);
    ReplaceResolves(r1, path, x1);
  }

  /** The element at pos replaced by x, seen from its parent. */
  lemma PutChild(root: Element, pos: seq<nat>, x: Element)
    requires ValidPos(root, pos) && pos != []
    ensures ValidPos(root, ParentPos(pos)) && Last(pos) < |At(root, ParentPos(pos)).children|
    ensures var pp := ParentPos(pos);
      && ValidPos(Put(root, pos, x), pp)
      && At(Put(root, pos, x), pp) == At(root, pp).(children := At(root, pp).children[Last(pos) := x])
  {
    var pp := ParentPos(pos);
    var l := Last(pos);
    ParentPosValid(root, pos);
    assert pos == pp + [l];
    var par := At(root, pp);
    assert ValidPos(par, [l]);
    PutAppend(root, pp, [l], x);
    AtPut(root, pp, Put(par, [l], x));
  }

  /** Creating eName at the index of an element just detached from its
      parent puts the new element in its place. */
  lemma DetachedInsert(root: Element, pos: seq<nat>, parent: string, eName: string)
    requires ValidPos(root, pos) && pos != [] && Resolve(root, parent) == Some(ParentPos(pos))
    requires ValidName(eName)
    ensures InsertedAt(Detach(root, pos), parent, eName, Last(pos) + 1) == Some(Put(root, pos, Leaf(eName, "")))
  {
    var pp := ParentPos(pos);
    var l := Last(pos);
    DetachInsert(root, pos, Leaf(eName, ""));
    ResolvePut(root, parent, pp, RemoveChild(At(root, pp), l));
  }

  /** Creating eName at the index of an element just detached from its
      parent puts the new element in its place; when no other sibling is
      called eName, "parent/eName" leads to it. */
  lemma InsertedInPlace(root: Element, pos: seq<nat>, parent: string, eName: string)
    requires ValidPos(root, pos) && pos != [] && Resolve(root, parent) == Some(ParentPos(pos))
    requires ValidName(eName) && parent != []
    requires ValidPos(root, ParentPos(pos))
    requires var cs := At(root, ParentPos(pos)).children;
      forall j :: 0 <= j < |cs| && j != Last(pos) ==> cs[j].name != eName
    ensures InsertedAt(Detach(root, pos), parent, eName, Last(pos) + 1) == Some(Put(root, pos, Leaf(eName, "")))
    ensures Resolve(Put(root, pos, Leaf(eName, "")), parent + "/" + eName) == Some(pos)
  {
    var pp := ParentPos(pos);
    var l := Last(pos);
    assert pos == pp + [l];
    var x := Leaf(eName, "");
    DetachedInsert(root, pos, parent, eName);
    var d2 := Put(root, pos, x);
    ResolveAbove(root, parent, pos, x);
    PutChild(root, pos, x);
    var cs := At(root, pp).children;
    var cs2 := At(d2, pp).children;
    assert cs2 == cs[l := x];
    assert forall j :: 0 <= j < |cs2| && j != l ==> cs2[j].name != eName by {
      forall j | 0 <= j < |cs2| && j != l ensures cs2[j].name != eName {
        assert cs2[j] == cs[j];
      }
    }
    SoleChild(d2, parent, l, eName);
  }

  /** Writing the eta iso line at the index of an element just detached
      from its parent, under a name no other sibling carries, puts the
      iso line in the element's place. */
  lemma EtaIsoLineInPlace(root: Element, pos: seq<nat>, parent: string, eName: string, eta: string, uid: string)
    requires ValidPos(root, pos) && pos != [] && Resolve(root, parent) == Some(ParentPos(pos))
    requires ValidName(eName) && parent != []
    requires ValidPos(root, ParentPos(pos))
    requires var cs := At(root, ParentPos(pos)).children;
      forall j :: 0 <= j < |cs| && j != Last(pos) ==> cs[j].name != eName
    ensures EtaIsoLineWritten(Detach(root, pos), parent, eName, Last(pos) + 1, eta, uid)
      == Some(Put(root, pos, Element(eName, map[], "", [Leaf("eta", eta), Leaf("referenceUID", uid)])))
  {
    InsertedInPlace(root, pos, parent, eName);
    var x := Leaf(eName, "");
    var newPath := parent + "/" + eName;
    EtaIsName();
    AppendedReplaced(root, pos, x, newPath, "eta", eta);
    var x1 := AppendChild(x, Leaf("eta", eta));
    ReferenceUidIsName();
    AppendedReplaced(root, pos, x1, newPath, "referenceUID", uid);
    IsoLineBuilt(eName, "eta", eta, uid);
  }

  /** When the elementUID is the only child of its name, eName is a valid
      name no other sibling carries, and a segment reference is found, the
      element is replaced in place by the iso line eName holding the eta
      and the segment's uID. */
  lemma ElementUidInPlace(root: Element, xpath: string, eName: string, query: (Element, string) -> seq<string>)
    requires CheckElement(root, xpath) && Resolve(root, xpath).value != []
    requires ValidName(ElementName(xpath)) && ValidName(eName)
    requires ValidPos(root, ParentPos(Resolve(root, xpath).value))
    requires var pos := Resolve(root, xpath).value;
      var cs := At(root, ParentPos(pos)).children;
      forall j :: 0 <= j < |cs| && j != Last(pos) ==> cs[j].name != eName
    requires SegmentReference(Detach(root, Resolve(root, xpath).value),
                              GetTextElement(root, xpath).value, query).Ok?
    ensures var pos := Resolve(root, xpath).value;
      var ref := SegmentReference(Detach(root, pos), GetTextElement(root, xpath).value, query).value;
      ElementUidConverted(root, xpath, eName, query)
        == Some(Put(root, pos, Element(eName, map[], "", [Leaf("eta", ref.0), Leaf("referenceUID", ref.1)])))
  {
    var pos := Resolve(root, xpath).value;
    var ref := SegmentReference(Detach(root, pos), GetTextElement(root, xpath).value, query).value;
    ElementUidConvertedAt(root, xpath, eName, query);
    EtaIsoLineInPlace(root, pos, ParentPath(xpath), eName, ref.0, ref.1);
  }

  /** For an elementUID below the root, the conversion writes eName at the
      index it had, under its parent, once a segment reference is found. */
  lemma ElementUidConvertedAt(root: Element, xpath: string, eName: string, query: (Element, string) -> seq<string>)
    requires CheckElement(root, xpath) && Resolve(root, xpath).value != []
    requires ValidName(ElementName(xpath))
    ensures ParentPath(xpath) != []
    ensures Resolve(root, ParentPath(xpath)) == Some(ParentPos(Resolve(root, xpath).value))
    ensures var pos := Resolve(root, xpath).value;
      var ref := SegmentReference(Detach(root, pos), GetTextElement(root, xpath).value, query);
      ElementUidConverted(root, xpath, eName, query) ==
        if ref.Err? then None
        else EtaIsoLineWritten(Detach(root, pos), ParentPath(xpath), eName, Last(pos) + 1, ref.value.0, ref.value.1)
  {
    RecreateInPlace(root, xpath);
    ResolveParent(root, xpath);
  }

  /** When another sibling of the elementUID is already called eName, the
      path of the new element is ambiguous and adding the eta fails. */
  lemma ElementUidClash(root: Element, xpath: string, eName: string, query: (Element, string) -> seq<string>, j: nat)
    requires CheckElement(root, xpath) && Resolve(root, xpath).value != []
    requires ValidName(ElementName(xpath)) && ValidName(eName)
    requires ValidPos(root, ParentPos(Resolve(root, xpath).value))
    requires var pos := Resolve(root, xpath).value;
      var cs := At(root, ParentPos(pos)).children;
      j < |cs| && j != Last(pos) && cs[j].name == eName
    ensures ElementUidConverted(root, xpath, eName, query).None?
  {
    var pos := Resolve(root, xpath).value;
    var parent := ParentPath(xpath);
    ElementUidConvertedAt(root, xpath, eName, query);
    var ref := SegmentReference(Detach(root, pos), GetTextElement(root, xpath).value, query);
    if ref.Ok? {
      DetachedInsert(root, pos, parent, eName);
      SiblingClash(root, pos, parent, eName, j);
    }
  }

  /** Putting a new eName where the element at pos was, beside a sibling
      j already called eName, leaves "parent/eName" leading nowhere. */
  lemma SiblingClash(root: Element, pos: seq<nat>, parent: string, eName: string, j: nat)
    requires ValidPos(root, pos) && pos != [] && Resolve(root, parent) == Some(ParentPos(pos))
    requires ValidName(eName)
    requires var cs := At(root, ParentPos(pos)).children;
      j < |cs| && j != Last(pos) && cs[j].name == eName
    ensures forall eta, uid :: EtaAndUidWritten(Put(root, pos, Leaf(eName, "")), parent + "/" + eName, eta, uid).None?
  {
    var pp := ParentPos(pos);
    var l := Last(pos);
    var x := Leaf(eName, "");
    var d2 := Put(root, pos, x);
    ResolveAbove(root, parent, pos, x);
    PutChild(root, pos, x);
    var cs2 := At(d2, pp).children;
    assert cs2 == At(root, pp).children[l := x];
    TwoNamed(Names(cs2), eName, j, l);
    ResolveChild(d2, parent, eName);
    assert Resolve(d2, parent + "/" + eName).None?;
  }

  /** A name found at two indexes is counted at least twice. */
  lemma TwoNamed(ns: seq<string>, n: string, i: nat, k: nat)
    requires i < |ns| && k < |ns| && i != k && ns[i] == n && ns[k] == n
    ensures CountNamed(ns, n) >= 2
  {
    CountAround(ns, n, k);
    if i < k {
      assert ns[..k][i] == n;
      CountNamedZero(ns[..k], n);
    } else {
      assert ns[k + 1..][i - k - 1] == n;
      CountNamedZero(ns[k + 1..], n);
    }
  }

  /** convertElementUidToEtaAndUid: read the elementUID, note its index,
      remove it, find the wing segment that references the section
      element, and create eName at that index holding the eta and the
      segment's uID. */
  method ConvertElementUid(tixi: Handle, xpath: string, eName: string, query: (Element, string) -> seq<string>)
    returns (r: Result<()>)
    modifies tixi
    ensures r.Ok? <==> ElementUidConverted(old(tixi.root), xpath, eName, query).Some?
    ensures r.Ok? ==> tixi.root == ElementUidConverted(old(tixi.root), xpath, eName, query).value
  {
    ghost var root0 := tixi.root;
    var elementUid :- GetTextElement(tixi.root, xpath);
    ghost var pos := Resolve(root0, xpath).value;
    if pos == [] {
      RootPathParent(root0, xpath);
    } else {
      ResolveParent(root0, xpath);
    }
    var index :- ElementIndex(tixi, xpath);
    var removed := tixi.RemoveElement(xpath);
    if removed.Err? {
      assert false;
    }
    var ref :- FindSegmentReference(tixi, elementUid, query);
    r := WriteEtaIsoLine(tixi, ParentPath(xpath), eName, index, ref.0, ref.1);
  }

  /** The segment search of convertElementUidToEtaAndUid. */
  method FindSegmentReference(tixi: Handle, elementUid: string, query: (Element, string) -> seq<string>)
    returns (r: Result<(string, string)>)
    ensures r == SegmentReference(tixi.root, elementUid, query)
    ensures var to := query(tixi.root, ToSegmentQuery(elementUid));
      var from := query(tixi.root, FromSegmentQuery(elementUid));
      && (|to| > 0 ==> r == (var u :- GetTextAttribute(tixi.root, to[0], "uID"); Ok(("1", u))))
      && (|to| == 0 && |from| > 0 ==> r == (var u :- GetTextAttribute(tixi.root, from[0], "uID"); Ok(("0", u))))
      && (|to| == 0 && |from| == 0 ==> r == Ok(("0", "TODO")))
  {
    var wingSegments := query(tixi.root, ToSegmentQuery(elementUid));
    if |wingSegments| > 0 {
      var uid :- GetTextAttribute(tixi.root, wingSegments[0], "uID");
      return Ok(("1", uid));
    }
    wingSegments := query(tixi.root, FromSegmentQuery(elementUid));
    if |wingSegments| > 0 {
      var uid :- GetTextAttribute(tixi.root, wingSegments[0], "uID");
      return Ok(("0", uid));
    }
    return Ok(("0", "TODO"));
  }

  /** The writes of convertElementUidToEtaAndUid. */
  method WriteEtaIsoLine(tixi: Handle, parentPath: string, eName: string, index: int, eta: string, uid: string)
    returns (r: Result<()>)
    modifies tixi
    ensures r.Ok? <==> EtaIsoLineWritten(old(tixi.root), parentPath, eName, index, eta, uid).Some?
    ensures r.Ok? ==> tixi.root == EtaIsoLineWritten(old(tixi.root), parentPath, eName, index, eta, uid).value
  {
    var _ :- tixi.CreateElementAtIndex(parentPath, eName, index);
    r := WriteEtaAndUid(tixi, parentPath + "/" + eName, eta, uid);
  }

  method WriteEtaAndUid(tixi: Handle, p: string, eta: string, uid: string) returns (r: Result<()>)
    modifies tixi
    ensures r.Ok? <==> EtaAndUidWritten(old(tixi.root), p, eta, uid).Some?
    ensures r.Ok? ==> tixi.root == EtaAndUidWritten(old(tixi.root), p, eta, uid).value
  {
    var _ :- tixi.AddDoubleElement(p, "eta", eta);
    r := tixi.AddTextElement(p, "referenceUID", uid);
  }

  // ----- the whole conversion -----------------------------------------------------

  const EtaXpath: string :=
    "//track/eta|" +
    "//cutOutProfile/eta|" +
    "//intermediateAirfoil/eta|" +
    "//positioningInnerBorder/eta1|" +
    "//positioningOuterBorder/eta1|" +
    "//positioningInnerBorder/eta2|" +
    "//positioningOuterBorder/eta2|" +
    "//ribsPositioning/etaStart|" +
    "//ribsPositioning/etaEnd|" +
    "//ribExplicitPositioning/etaStart|" +
    "//ribExplicitPositioning/etaEnd|" +
    "//innerBorder/etaLE|" +
    "//outerBorder/etaLE|" +
    "//innerBorder/etaTE|" +
    "//outerBorder/etaTE|" +
    "//position/etaOutside|" +
    "//sparCell/fromEta|" +
    "//sparCell/toEta"

  const XsiXpath: string :=
    "//stringer/innerBorderXsiLE|" +
    "//stringer/innerBorderXsiTE|" +
    "//stringer/outerBorderXsiLE|" +
    "//stringer/outerBorderXsiTE|" +
    "//innerBorder/xsiLE|" +
    "//outerBorder/xsiLE|" +
    "//innerBorder/xsiTE|" +
    "//outerBorder/xsiTE|" +
    "//position/xsiInside"

  /** The two elementUID queries, trailing '|' included as written. */
  const ElementStartUidXpath: string := "//ribsPositioning/elementStartUID|"
  const ElementEndUidXpath: string := "//ribsPositioning/elementEndUID|"

  /** What happens to each path a query returned: a scalar becomes an iso
      line holding it under eName, or an elementUID becomes the iso line
      eName. */
  datatype Stage = Scalar(eName: string) | FromElementUid(eName: string)

  function ConvertOne(root: Element, path: string, st: Stage, query: (Element, string) -> seq<string>): Option<Element>
  {
    match st
    case Scalar(n) => IsoLine(root, path, n)
    case FromElementUid(n) => ElementUidConverted(root, path, n, query)
  }

  function StageStep(st: Stage, query: (Element, string) -> seq<string>): (Element, string) -> Option<Element>
  {
    (root, path) => ConvertOne(root, path, st, query)
  }

  /** The paths handled one after the other by step; None at the first
      failure (the Python loops let the exception end the run). */
  function Fold(root: Element, paths: seq<string>, step: (Element, string) -> Option<Element>): Option<Element>
    decreases |paths|
  {
    if paths == [] then Some(root)
    else
      var r :- Fold(root, paths[..|paths| - 1], step);
      step(r, paths[|paths| - 1])
  }

  /** Handling a + b is handling a, then b on the result; a failure in a
      stops the run. */
  lemma {:induction false} FoldAppend(root: Element, a: seq<string>, b: seq<string>,
                                      step: (Element, string) -> Option<Element>)
    ensures Fold(root, a + b, step) ==
      if Fold(root, a, step).None? then None else Fold(Fold(root, a, step).value, b, step)
    decreases |b|
  {
    if b == [] {
      assert a + b == a;
    } else {
      var b' := b[..|b| - 1];
      assert (a + b)[..|a + b| - 1] == a + b';
      assert (a + b)[|a + b| - 1] == b[|b| - 1];
      FoldAppend(root, a, b', step);
    }
  }

  /** A failure on one path fails the whole run. */
  lemma FoldFails(root: Element, paths: seq<string>, i: nat, step: (Element, string) -> Option<Element>)
    requires i < |paths| && Fold(root, paths[..i], step).Some?
    requires step(Fold(root, paths[..i], step).value, paths[i]).None?
    ensures Fold(root, paths, step).None?
  {
    assert paths[..i + 1][..i] == paths[..i];
    FoldAppend(root, paths[..i + 1], paths[i + 1..], step);
    assert paths[..i + 1] + paths[i + 1..] == paths;
  }

  /** The loop over the paths of one query. */
  method ConvertPaths(tixi: Handle, paths: seq<string>, st: Stage, query: (Element, string) -> seq<string>)
    returns (r: Result<()>)
    modifies tixi
    ensures r.Ok? <==> Fold(old(tixi.root), paths, StageStep(st, query)).Some?
    ensures r.Ok? ==> tixi.root == Fold(old(tixi.root), paths, StageStep(st, query)).value
  {
    ghost var root0 := tixi.root;
    ghost var step := StageStep(st, query);
    for i := 0 to |paths|
      invariant Fold(root0, paths[..i], step) == Some(tixi.root)
    {
      assert paths[..i + 1][..i] == paths[..i];
      var s;
      match st {
        case Scalar(n) => s := ConvertIsoLine(tixi, paths[i], n);
        case FromElementUid(n) => s := ConvertElementUid(tixi, paths[i], n, query);
      }
      if s.Err? {
        FoldFails(root0, paths, i, step);
        return Err(s.error);
      }
    }
    assert paths[..|paths|] == paths;
    return Ok(());
  }

  /** The document after convertEtaXsiIsoLines: the eta values, then the
      xsi values, then the elementStartUIDs and the elementEndUIDs, each
      query evaluated on the document as the previous stage left it. */
  function EtaXsiIsoLines(root: Element, query: (Element, string) -> seq<string>): Option<Element>
  {
    var r1 :- Fold(root, query(root, EtaXpath), StageStep(Scalar("eta"), query));
    var r2 :- Fold(r1, query(r1, XsiXpath), StageStep(Scalar("xsi"), query));
    var r3 :- Fold(r2, query(r2, ElementStartUidXpath), StageStep(FromElementUid("etaStart"), query));
    Fold(r3, query(r3, ElementEndUidXpath), StageStep(FromElementUid("etaEnd"), query))
  }

  /** convertEtaXsiIsoLines */
  method ConvertEtaXsiIsoLines(tixi: Handle, query: (Element, string) -> seq<string>) returns (r: Result<()>)
    modifies tixi
    ensures r.Ok? <==> EtaXsiIsoLines(old(tixi.root), query).Some?
    ensures r.Ok? ==> tixi.root == EtaXsiIsoLines(old(tixi.root), query).value
  {
    var _ :- ConvertPaths(tixi, query(tixi.root, EtaXpath), Scalar("eta"), query);
    var _ :- ConvertPaths(tixi, query(tixi.root, XsiXpath), Scalar("xsi"), query);
    var _ :- ConvertPaths(tixi, query(tixi.root, ElementStartUidXpath), FromElementUid("etaStart"), query);
    r := ConvertPaths(tixi, query(tixi.root, ElementEndUidXpath), FromElementUid("etaEnd"), query);
  }
}
