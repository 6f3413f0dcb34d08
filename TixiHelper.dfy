/** The TiXI helper routines that walk a document without changing it:
    the index of an element among its siblings, and the uID of the
    nearest ancestor that carries one. */
module TixiHelper {
  import opened Wrappers
  import opened Xml
  import opened Tixi
  import opened Paths

  /** k is where element_index places name among cs: the 1-based position
      of the first child so named, or |cs| when none is. */
  predicate IsElementIndex(cs: seq<Element>, name: string, k: nat)
  {
    || (1 <= k <= |cs| && cs[k - 1].name == name && forall j :: 0 <= j < k - 1 ==> cs[j].name != name)
    || (k == |cs| && forall j :: 0 <= j < |cs| ==> cs[j].name != name)
  }

  /** The 0-based index of the first child named name. */
  function FirstNamed(cs: seq<Element>, name: string): (r: Option<nat>)
    ensures r.Some? ==> r.value < |cs| && cs[r.value].name == name
    ensures forall j :: 0 <= j < |cs| && (r.None? || j < r.value) ==> cs[j].name != name
  {
    if cs == [] then None
    else if cs[0].name == name then Some(0)
    else
      match FirstNamed(cs[1..], name)
      case None => None
      case Some(i) => Some(i + 1)
  }

  /** The value element_index computes. */
  function IndexByName(cs: seq<Element>, name: string): (k: nat)
    ensures IsElementIndex(cs, name, k)
  {
    match FirstNamed(cs, name)
    case None => |cs|
    case Some(i) => i + 1
  }

  /** At most one k satisfies IsElementIndex: element_index is determined
      by the children's names. */
  lemma ElementIndexUnique(cs: seq<Element>, name: string, k1: nat, k2: nat)
    requires IsElementIndex(cs, name, k1) && IsElementIndex(cs, name, k2)
    ensures k1 == k2
  {
  }

  /** A last step that carries a positional predicate, "name[n]", is no
      element name, so when every child has a proper name element_index
      gives the child count. */
  lemma IndexedStepIndex(cs: seq<Element>, step: string)
    requires '[' in step
    requires forall j :: 0 <= j < |cs| ==> ValidName(cs[j].name)
    ensures IndexByName(cs, step) == |cs|
  {
    var k :| 0 <= k < |step| && step[k] == '[';
    assert !ValidName(step);
  }

  /** The children of the element a path leads to. */
  function ChildrenAt(root: Element, path: string): seq<Element>
    requires Resolve(root, path).Some?
  {
    At(root, Resolve(root, path).value).children
  }

  /** element_index (and its copy elementIndexInParent in the converter):
      the 1-based position of the first child of the parent whose name is
      the path's last step; the child count when no child has that name
      (which is the case whenever the last step carries a "[n]"). */
  method ElementIndex(tixi: Handle, xpath: string) returns (r: Result<nat>)
    ensures r.Ok? <==> Resolve(tixi.root, ParentPath(xpath)).Some?
    ensures r.Ok? ==> r.value == IndexByName(ChildrenAt(tixi.root, ParentPath(xpath)), ElementName(xpath))
  {
    r := ChildIndex(tixi, ParentPath(xpath), ElementName(xpath));
  }

  /** The loop of element_index, over the children of parentXPath. */
  method ChildIndex(tixi: Handle, parentXPath: string, childName: string) returns (r: Result<nat>)
    ensures r.Ok? <==> Resolve(tixi.root, parentXPath).Some?
    ensures r.Ok? ==> r.value == IndexByName(ChildrenAt(tixi.root, parentXPath), childName)
  {
    var count :- GetNumberOfChilds(tixi.root, parentXPath);
    ghost var cs := ChildrenAt(tixi.root, parentXPath);
    for i := 0 to count
      invariant forall j :: 0 <= j < i ==> cs[j].name != childName
    {
      var name := GetChildNodeName(tixi.root, parentXPath, i + 1).value;
      if name == childName {
        ElementIndexUnique(cs, childName, i + 1, IndexByName(cs, childName));
        return Ok(i + 1);
      }
    }
    ElementIndexUnique(cs, childName, count, IndexByName(cs, childName));
    return Ok(count);
  }

  /** The upward walk of next_parent_uid and UIDGenerator.create, starting
      at `parent`: the uID of the first path on the way that carries one,
      '' once the walk has reached the empty path, or the split error of a
      path without '/'. */
  function AncestorUid(root: Element, parent: string): Result<string>
    decreases |parent|
  {
    if CheckAttribute(root, parent, "uID") then GetTextAttribute(root, parent, "uID")
    else
      ParentChildSpec(parent);
      match ParentChild(parent)
      case Err(e) => Err(e)
      case Ok(pc) => if pc.0 == "" then Ok("") else AncestorUid(root, pc.0)
  }

  /** The paths the walk visits from `parent` if none of them carries a uID. */
  function Chain(parent: string): (c: seq<string>)
    ensures |c| >= 1 && c[0] == parent
    decreases |parent|
  {
    ParentChildSpec(parent);
    match ParentChild(parent)
    case Err(_) => [parent]
    case Ok(pc) => if pc.0 == "" then [parent] else [parent] + Chain(pc.0)
  }

  /** Each path on the walk is a prefix of the start, each strictly shorter
      than the one before: the walk goes to ever nearer-the-root ancestors. */
  lemma {:induction false} ChainShortens(parent: string)
    ensures forall k :: 0 <= k < |Chain(parent)| ==> Chain(parent)[k] <= parent
    ensures forall k :: 0 < k < |Chain(parent)| ==> |Chain(parent)[k]| < |Chain(parent)[k - 1]|
    decreases |parent|
  {
    ParentChildSpec(parent);
    match ParentChild(parent)
    case Err(_) =>
    case Ok(pc) =>
      if pc.0 != "" {
        var t := TrimSlashes(parent);
        assert pc.0 <= parent by {
          assert pc.0 + "/" + ElementName(t) == t;
          assert pc.0 == t[..|pc.0|];
        }
        ChainShortens(pc.0);
        var c := Chain(parent);
        assert c == [parent] + Chain(pc.0);
        forall k | 0 < k < |c| ensures c[k] <= parent {
          assert c[k] == Chain(pc.0)[k - 1];
        }
      }
  }

  /** The path where the walk stops: the first one on it that cannot be
      split or whose parent is the empty path. */
  function ChainEnd(parent: string): string
    decreases |parent|
  {
    ParentChildSpec(parent);
    match ParentChild(parent)
    case Err(_) => parent
    case Ok(pc) => if pc.0 == "" then parent else ChainEnd(pc.0)
  }

  predicate HasUid(root: Element, path: string)
  {
    CheckAttribute(root, path, "uID")
  }

  /** The index of the first path in c that carries a uID, or |c|. */
  function FirstWithUid(root: Element, c: seq<string>): (k: nat)
    ensures k <= |c|
    ensures k < |c| ==> HasUid(root, c[k])
    ensures forall j :: 0 <= j < k ==> !HasUid(root, c[j])
  {
    if c == [] then 0 else if HasUid(root, c[0]) then 0 else 1 + FirstWithUid(root, c[1..])
  }

  /** The walk's answer is the uID of the first (nearest) path on the way
      that carries one, and '' when no path on the way does. */
  lemma {:induction false} AncestorUidNearest(root: Element, parent: string)
    requires AncestorUid(root, parent).Ok?
    ensures
      var c := Chain(parent);
      var k := FirstWithUid(root, c);
      AncestorUid(root, parent).value
        == if k < |c| then GetTextAttribute(root, c[k], "uID").value else ""
    decreases |parent|
  {
    var c := Chain(parent);
    if !HasUid(root, parent) {
      ParentChildSpec(parent);
      var pc := ParentChild(parent).value;
      if pc.0 != "" {
        AncestorUidNearest(root, pc.0);
        assert c[1..] == Chain(pc.0);
      }
    }
  }

  /** The walk fails only on a path it cannot split: one with no '/' left
      after trimming (a relative path), or the empty path. */
  lemma {:induction false} AncestorUidFails(root: Element, parent: string)
    requires AncestorUid(root, parent).Err?
    ensures FirstWithUid(root, Chain(parent)) == |Chain(parent)|
    ensures ParentChild(ChainEnd(parent)).Err?
    ensures AncestorUid(root, parent) == ParentChild(ChainEnd(parent)).PropagateFailure()
    decreases |parent|
  {
    ParentChildSpec(parent);
    assert !HasUid(root, parent);
    if ParentChild(parent).Ok? {
      var pc := ParentChild(parent).value;
      assert pc.0 != "" && AncestorUid(root, parent) == AncestorUid(root, pc.0);
      AncestorUidFails(root, pc.0);
      ChainStep(parent);
      FirstWithUidCons(root, parent, Chain(pc.0));
    } else {
      ChainStop(parent);
      FirstWithUidCons(root, parent, []);
    }
  }

  /** A path without a uID adds one to the index of the first with one. */
  lemma FirstWithUidCons(root: Element, parent: string, rest: seq<string>)
    requires !HasUid(root, parent)
    ensures FirstWithUid(root, [parent] + rest) == 1 + FirstWithUid(root, rest)
  {
    assert ([parent] + rest)[1..] == rest;
  }

  /** A path that splits into a non-empty parent continues the walk there. */
  lemma ChainStep(parent: string)
    requires ParentChild(parent).Ok? && ParentChild(parent).value.0 != ""
    ensures Chain(parent) == [parent] + Chain(ParentChild(parent).value.0)
    ensures ChainEnd(parent) == ChainEnd(ParentChild(parent).value.0)
  {
  }

  /** A path that cannot be split ends the walk. */
  lemma ChainStop(parent: string)
    requires ParentChild(parent).Err?
    ensures Chain(parent) == [parent] && ChainEnd(parent) == parent
  {
  }

  /** What next_parent_uid returns: the nearest ancestor uID and the
      element name without its "[n]". */
  function ParentUidAndName(root: Element, currentPath: string): Result<(string, string)>
  {
    match ParentChild(currentPath)
    case Err(e) => Err(e)
    case Ok(pc) =>
      match AncestorUid(root, pc.0)
      case Err(e) => Err(e)
      case Ok(u) => Ok((u, pc.1))
  }

  /** next_parent_uid: walks up from the parent of current_path until a
      path carries a uID or the empty path is reached. */
  method NextParentUid(tixi: Handle, currentPath: string) returns (r: Result<(string, string)>)
    ensures r == ParentUidAndName(tixi.root, currentPath)
  {
    var pc :- SplitParentChildPath(currentPath);
    var parent, elem := pc.0, pc.1;
    while !CheckAttribute(tixi.root, parent, "uID")
      invariant AncestorUid(tixi.root, pc.0) == AncestorUid(tixi.root, parent)
      decreases |parent|
    {
      ParentChildSpec(parent);
      var next := SplitParentChildPath(parent);
      if next.Err? {
        return Err(next.error);
      }
      parent := next.value.0;
      if parent == "" {
        break;
      }
    }
    var parentUid := "";
    if parent != "" {
      var a := GetTextAttribute(tixi.root, parent, "uID");
      parentUid := a.value;
    }
    return Ok((parentUid, elem));
  }
}
