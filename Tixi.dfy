/** The part of the TiXI document handle the converter uses. Queries are
    functions of the document's root element; the handle itself is a
    class whose methods edit the document in place. Every call addresses
    elements by an absolute path, as Xml.Resolve reads it. */
module Tixi {
  import opened Wrappers
  import opened Text
  import opened Xml

  // ----- queries --------------------------------------------------------------

  /** checkElement: the path addresses exactly one element. */
  predicate CheckElement(root: Element, path: string)
  {
    Resolve(root, path).Some?
  }

  /** checkAttribute: the element exists and carries the attribute. */
  predicate CheckAttribute(root: Element, path: string, attr: string)
  {
    Resolve(root, path).Some? && attr in At(root, Resolve(root, path).value).attrs
  }

  /** getTextAttribute */
  function GetTextAttribute(root: Element, path: string, attr: string): (r: Result<string>)
    ensures r.Ok? <==> CheckAttribute(root, path, attr)
  {
    match Resolve(root, path)
    case None => Err(ElementNotFound(path))
    case Some(p) =>
      if attr in At(root, p).attrs then Ok(At(root, p).attrs[attr]) else Err(AttributeNotFound(path, attr))
  }

  /** getTextElement */
  function GetTextElement(root: Element, path: string): (r: Result<string>)
    ensures r.Ok? <==> CheckElement(root, path)
    ensures r.Ok? ==> r.value == At(root, Resolve(root, path).value).text
  {
    match Resolve(root, path)
    case None => Err(ElementNotFound(path))
    case Some(p) => Ok(At(root, p).text)
  }

  /** Text that a decimal number starts, as C's strtod reads it: an
      optional sign, then a digit or a '.' followed by a digit. */
  predicate IsNumberText(s: string)
  {
    var t := if |s| > 0 && (s[0] == '+' || s[0] == '-') then s[1..] else s;
    |t| > 0 && (IsDigit(t[0]) || (t[0] == '.' && |t| > 1 && IsDigit(t[1])))
  }

  /** getDoubleElement: the element's text when it is a number. The value
      is carried as its text. */
  function GetDoubleElement(root: Element, path: string): (r: Result<string>)
    ensures r.Ok? <==> CheckElement(root, path) && IsNumberText(At(root, Resolve(root, path).value).text)
    ensures r.Ok? ==> r.value == At(root, Resolve(root, path).value).text
  {
    match Resolve(root, path)
    case None => Err(ElementNotFound(path))
    case Some(p) => if IsNumberText(At(root, p).text) then Ok(At(root, p).text) else Err(NoNumber(path))
  }

  /** getNumberOfChilds: the number of child elements. */
  function GetNumberOfChilds(root: Element, path: string): Result<nat>
  {
    match Resolve(root, path)
    case None => Err(ElementNotFound(path))
    case Some(p) => Ok(|At(root, p).children|)
  }

  /** getChildNodeName: the name of the index-th child, counting from 1. */
  function GetChildNodeName(root: Element, path: string, index: int): Result<string>
  {
    match Resolve(root, path)
    case None => Err(ElementNotFound(path))
    case Some(p) =>
      if 1 <= index <= |At(root, p).children| then Ok(At(root, p).children[index - 1].name)
      else Err(IndexOutOfRange(path, index))
  }

  /** getNamedChildrenCount */
  function GetNamedChildrenCount(root: Element, path: string, name: string): Result<nat>
  {
    match Resolve(root, path)
    case None => Err(ElementNotFound(path))
    case Some(p) => Ok(CountNamed(Names(At(root, p).children), name))
  }

  // ----- the edits as values ----------------------------------------------------

  /** The document after a successful removeElement. */
  function Removed(root: Element, path: string): Option<Element>
  {
    match Resolve(root, path)
    case None => None
    case Some(p) => if p == [] then None else Some(Detach(root, p))
  }

  /** The document after a successful createElementAtIndex. */
  function InsertedAt(root: Element, parentPath: string, name: string, index: int): Option<Element>
  {
    match Resolve(root, parentPath)
    case None => None
    case Some(p) =>
      if ValidName(name) && 1 <= index <= |At(root, p).children| + 1 then
        Some(Put(root, p, InsertChild(At(root, p), index - 1, Leaf(name, ""))))
      else None
  }

  /** The document after a successful addTextElement (createElement and
      addDoubleElement are addTextElement with empty or numeric text). */
  function Appended(root: Element, parentPath: string, name: string, text: string): Option<Element>
  {
    match Resolve(root, parentPath)
    case None => None
    case Some(p) =>
      if ValidName(name) then Some(Put(root, p, AppendChild(At(root, p), Leaf(name, text)))) else None
  }

  // ----- the handle -------------------------------------------------------------

  class Handle {
    var root: Element

    constructor (root: Element)
      ensures this.root == root
    {
      this.root := root;
    }

    /** removeElement: the element and its subtree go; the root cannot. */
    method RemoveElement(path: string) returns (r: Result<()>)
      modifies this
      ensures r.Ok? <==> Resolve(old(root), path).Some? && Resolve(old(root), path).value != []
      ensures r.Ok? ==> root == Detach(old(root), Resolve(old(root), path).value)
      ensures r.Err? ==> root == old(root)
    {
      var p := Resolve(root, path);
      if p.None? {
        return Err(ElementNotFound(path));
      }
      if p.value == [] {
        return Err(CannotRemoveRoot(path));
      }
      root := Detach(root, p.value);
      return Ok(());
    }

    /** createElementAtIndex: a new empty child becomes the index-th child
        (1-based); index may be one past the last child. */
    method CreateElementAtIndex(parentPath: string, name: string, index: int) returns (r: Result<()>)
      modifies this
      ensures r.Ok? <==>
        && Resolve(old(root), parentPath).Some?
        && ValidName(name)
        && 1 <= index <= |At(old(root), Resolve(old(root), parentPath).value).children| + 1
      ensures r.Ok? ==>
        var p := Resolve(old(root), parentPath).value;
        root == Put(old(root), p, InsertChild(At(old(root), p), index - 1, Leaf(name, "")))
      ensures r.Err? ==> root == old(root)
    {
      var p := Resolve(root, parentPath);
      if p.None? {
        return Err(ElementNotFound(parentPath));
      }
      if !ValidName(name) {
        return Err(InvalidName(name));
      }
      var parent := At(root, p.value);
      if !(1 <= index <= |parent.children| + 1) {
        return Err(IndexOutOfRange(parentPath, index));
      }
      root := Put(root, p.value, InsertChild(parent, index - 1, Leaf(name, "")));
      return Ok(());
    }

    /** addTextElement: a new child holding text becomes the last child. */
    method AddTextElement(parentPath: string, name: string, text: string) returns (r: Result<()>)
      modifies this
      ensures r.Ok? <==> Resolve(old(root), parentPath).Some? && ValidName(name)
      ensures r.Ok? ==>
        var p := Resolve(old(root), parentPath).value;
        root == Put(old(root), p, AppendChild(At(old(root), p), Leaf(name, text)))
      ensures r.Err? ==> root == old(root)
    {
      var p := Resolve(root, parentPath);
      if p.None? {
        return Err(ElementNotFound(parentPath));
      }
      if !ValidName(name) {
        return Err(InvalidName(name));
      }
      root := Put(root, p.value, AppendChild(At(root, p.value), Leaf(name, text)));
      return Ok(());
    }

    /** createElement: a new empty child becomes the last child. */
    method CreateElement(parentPath: string, name: string) returns (r: Result<()>)
      modifies this
      ensures r.Ok? <==> Resolve(old(root), parentPath).Some? && ValidName(name)
      ensures r.Ok? ==>
        var p := Resolve(old(root), parentPath).value;
        root == Put(old(root), p, AppendChild(At(old(root), p), Leaf(name, "")))
      ensures r.Err? ==> root == old(root)
    {
      r := AddTextElement(parentPath, name, "");
    }

    /** addDoubleElement: as addTextElement, with the number's text (the
        "%g" rendering of the number is not modelled). */
    method AddDoubleElement(parentPath: string, name: string, number: string) returns (r: Result<()>)
      modifies this
      ensures r.Ok? <==> Resolve(old(root), parentPath).Some? && ValidName(name)
      ensures r.Ok? ==>
        var p := Resolve(old(root), parentPath).value;
        root == Put(old(root), p, AppendChild(At(old(root), p), Leaf(name, number)))
      ensures r.Err? ==> root == old(root)
    {
      r := AddTextElement(parentPath, name, number);
    }

    /** addTextAttribute: sets the attribute, replacing an old value. */
    method AddTextAttribute(path: string, attr: string, value: string) returns (r: Result<()>)
      modifies this
      ensures r.Ok? <==> Resolve(old(root), path).Some?
      ensures r.Ok? ==>
        var p := Resolve(old(root), path).value;
        root == Put(old(root), p, At(old(root), p).(attrs := At(old(root), p).attrs[attr := value]))
      ensures r.Err? ==> root == old(root)
    {
      var p := Resolve(root, path);
      if p.None? {
        return Err(ElementNotFound(path));
      }
      var e := At(root, p.value);
      root := Put(root, p.value, e.(attrs := e.attrs[attr := value]));
      return Ok(());
    }

    /** updateTextElement: replaces the element's text. */
    method UpdateTextElement(path: string, text: string) returns (r: Result<()>)
      modifies this
      ensures r.Ok? <==> Resolve(old(root), path).Some?
      ensures r.Ok? ==>
        var p := Resolve(old(root), path).value;
        root == Put(old(root), p, At(old(root), p).(text := text))
      ensures r.Err? ==> root == old(root)
    {
      var p := Resolve(root, path);
      if p.None? {
        return Err(ElementNotFound(path));
      }
      root := Put(root, p.value, At(root, p.value).(text := text));
      return Ok(());
    }
  }
}
