/** The header edits of the converter: the version number is set to 3.0,
    and an update entry recording the conversion is appended to the
    header's change log. */
module ConverterHeader {
  import opened Wrappers
  import opened Text
  import opened Xml
  import opened Tixi
  import opened Edits

  const VersionPath: string := "/cpacs/header/cpacsVersion"
  const HeaderPath: string := "/cpacs/header"

  /** The document with its version text set to "3.0", if the version
      element exists. */
  function WithVersion3(root: Element): Option<Element>
  {
    match Resolve(root, VersionPath)
    case None => None
    case Some(p) => Some(Put(root, p, At(root, p).(text := "3.0")))
  }

  /** Afterwards the version reads "3.0" and the version element is where
      it was. */
  lemma WithVersion3Reads(root: Element)
    requires WithVersion3(root).Some?
    ensures Resolve(WithVersion3(root).value, VersionPath) == Resolve(root, VersionPath)
    ensures GetTextElement(WithVersion3(root).value, VersionPath) == Ok("3.0")
  {
    var p := Resolve(root, VersionPath).value;
    ReplaceResolves(root, VersionPath, At(root, p).(text := "3.0"));
  }

  /** Setting the version twice is setting it once. */
  lemma WithVersion3Idempotent(root: Element)
    requires WithVersion3(root).Some?
    ensures WithVersion3(WithVersion3(root).value) == WithVersion3(root)
  {
    var p := Resolve(root, VersionPath).value;
    var r := WithVersion3(root).value;
    WithVersion3Reads(root);
    AtPut(root, p, At(root, p).(text := "3.0"));
    PutAt(r, p);
  }

  /** change_cpacs_version */
  method ChangeCpacsVersion(tixi: Handle) returns (r: Result<()>)
    modifies tixi
    ensures r.Ok? <==> WithVersion3(old(tixi.root)).Some?
    ensures r.Ok? ==> tixi.root == WithVersion3(old(tixi.root)).value
  {
    r := tixi.UpdateTextElement(VersionPath, "3.0");
  }

  /** The update entry add_changelog writes, with the time stamp given. */
  function UpdateEntry(timestamp: string): Element
  {
    Element("update", map[], "", [
      Leaf("modification", "Converted to cpacs 3.0 using cpacs2to3"),
      Leaf("creator", "cpacs2to3"),
      Leaf("timestamp", timestamp),
      Leaf("version", "ver1"),
      Leaf("cpacsVersion", "3.0")])
  }

  /** The path of the updates element under the header at `header`. */
  function UpdatesOf(header: string): string
  {
    header + "/" + "updates"
  }

  /** The path "updates/update[n]" under the header at `header`. */
  function EntryPath(header: string, n: nat): string
  {
    UpdatesOf(header) + "/" + "update" + "[" + NatToString(n) + "]"
  }

  /** The document once the header at `header` is known to hold an updates
      element: unchanged if it does, else with an empty one appended to the
      header. */
  function WithUpdates(root: Element, header: string): Option<Element>
  {
    if CheckElement(root, UpdatesOf(header)) then Some(root)
    else
      match Resolve(root, header)
      case None => None
      case Some(h) => Some(Put(root, h, AppendChild(At(root, h), Leaf("updates", ""))))
  }

  /** The document after add_changelog: the update entry appended as the
      last child of the updates element. */
  function WithChangelog(root: Element, header: string, timestamp: string): Option<Element>
  {
    match WithUpdates(root, header)
    case None => None
    case Some(r1) =>
      match Resolve(r1, UpdatesOf(header))
      case None => None
      case Some(u) => Some(Put(r1, u, AppendChild(At(r1, u), UpdateEntry(timestamp))))
  }

  /** The names add_changelog creates are names createElement accepts. */
  lemma UpdatesNames()
    ensures ValidName("updates") && ValidName("update")
  {
  }

  /** A header without an updates element gets one that holds exactly the
      new entry. */
  lemma ChangelogCreatesUpdates(root: Element, header: string, timestamp: string)
    requires Resolve(root, header).Some?
    requires "updates" !in Names(At(root, Resolve(root, header).value).children)
    ensures WithChangelog(root, header, timestamp).Some?
    ensures var r := WithChangelog(root, header, timestamp).value;
      Resolve(r, UpdatesOf(header)).Some? && At(r, Resolve(r, UpdatesOf(header)).value).children == [UpdateEntry(timestamp)]
  {
    var h := Resolve(root, header).value;
    var hd := At(root, h);
    var up := UpdatesOf(header);
    UpdatesNames();
    CountNamedZero(Names(hd.children), "updates");
    ResolveChild(root, header, "updates");
    assert !CheckElement(root, up);
    var r1 := Put(root, h, AppendChild(hd, Leaf("updates", "")));
    assert WithUpdates(root, header) == Some(r1);
    AppendResolves(root, header, Leaf("updates", ""));
    AtPut(root, h, AppendChild(hd, Leaf("updates", "")));
    NamesAppend(hd.children, Leaf("updates", ""));
    NthNamedLast(Names(hd.children), "updates");
    ResolveChild(r1, header, "updates");
    AppendAt(root, h, Leaf("updates", ""), Leaf("updates", ""));
    var u := h + [|hd.children|];
    assert Resolve(r1, up) == Some(u);
    var r := Put(r1, u, AppendChild(At(r1, u), UpdateEntry(timestamp)));
    assert WithChangelog(root, header, timestamp) == Some(r);
    AppendResolves(r1, up, UpdateEntry(timestamp));
    AtPut(r1, u, AppendChild(At(r1, u), UpdateEntry(timestamp)));
    assert At(r1, u) == Leaf("updates", "");
  }

  /** The entry lands as the last child of the one updates element, which
      keeps its place, and "updates/update[n]", n the number of update
      children afterwards, addresses it. */
  lemma ChangelogAppendsOne(root: Element, header: string, timestamp: string)
    requires WithChangelog(root, header, timestamp).Some?
    ensures var r1 := WithUpdates(root, header).value;
      var u := Resolve(r1, UpdatesOf(header)).value;
      var r := WithChangelog(root, header, timestamp).value;
      && Resolve(r, UpdatesOf(header)) == Some(u)
      && At(r, u).children == At(r1, u).children + [UpdateEntry(timestamp)]
      && var n := CountNamed(Names(At(r, u).children), "update");
         Resolve(r, EntryPath(header, n)) == Some(u + [|At(r1, u).children|])
  {
    var r1 := WithUpdates(root, header).value;
    var up := UpdatesOf(header);
    var u := Resolve(r1, up).value;
    var cs := At(r1, u).children;
    UpdatesNames();
    var r := WithChangelog(root, header, timestamp).value;
    AppendResolves(r1, up, UpdateEntry(timestamp));
    AtPut(r1, u, AppendChild(At(r1, u), UpdateEntry(timestamp)));
    NamesAppend(cs, UpdateEntry(timestamp));
    NthNamedLast(Names(cs), "update");
    var n := CountNamed(Names(At(r, u).children), "update");
    ResolveNthChild(r, up, "update", n);
  }

  /** Adding one more text element to the entry x under construction; the
      entry's path resolves as it did when the entry was empty. */
  lemma FillEntry(r1: Element, u: seq<nat>, xpath: string, x: Element, y: Element)
    requires ValidPos(r1, u) && x.name == "update"
    requires Resolve(Put(r1, u, AppendChild(At(r1, u), Leaf("update", ""))), xpath) == Some(u + [|At(r1, u).children|])
    ensures var a := At(r1, u);
      var e := u + [|a.children|];
      var cur := Put(r1, u, AppendChild(a, x));
      && ValidPos(cur, e) && At(cur, e) == x
      && Put(cur, e, AppendChild(x, y)) == Put(r1, u, AppendChild(a, AppendChild(x, y)))
      && Resolve(cur, xpath) == Some(e)
  {
    var a := At(r1, u);
    var e := u + [|a.children|];
    var base := Put(r1, u, AppendChild(a, Leaf("update", "")));
    AppendAt(r1, u, Leaf("update", ""), x);
    ResolvePut(base, xpath, e, x);
    AppendAt(r1, u, x, AppendChild(x, y));
  }

  /** add_changelog, for the header at `header`: makes sure updates exists,
      appends an empty update, finds it by counting, and fills it with five
      text elements. */
  method AddChangelogUnder(tixi: Handle, header: string, timestamp: string) returns (r: Result<()>)
    modifies tixi
    ensures r.Ok? <==> WithChangelog(old(tixi.root), header, timestamp).Some?
    ensures r.Ok? ==> tixi.root == WithChangelog(old(tixi.root), header, timestamp).value
  {
    var updatesPath := UpdatesOf(header);
    UpdatesNames();
    if !CheckElement(tixi.root, updatesPath) {
      var c := tixi.CreateElement(header, "updates");
      if c.Err? {
        assert WithUpdates(old(tixi.root), header).None?;
        return Err(c.error);
      }
    }
    ghost var r1 := tixi.root;
    assert WithUpdates(old(tixi.root), header) == Some(r1);
    var c := tixi.CreateElement(updatesPath, "update");
    if c.Err? {
      assert Resolve(r1, updatesPath).None?;
      return Err(c.error);
    }
    ghost var u := Resolve(r1, updatesPath).value;
    ghost var updates := At(r1, u);
    ghost var e := u + [|updates.children|];
    var counted := GetNamedChildrenCount(tixi.root, updatesPath, "update");
    AppendResolves(r1, updatesPath, Leaf("update", ""));
    AtPut(r1, u, AppendChild(updates, Leaf("update", "")));
    NamesAppend(updates.children, Leaf("update", ""));
    NthNamedLast(Names(updates.children), "update");
    var n := counted.value;
    var xpath := EntryPath(header, n);
    ResolveNthChild(tixi.root, updatesPath, "update", n);
    assert Resolve(tixi.root, xpath) == Some(e);

    WriteEntry(tixi, xpath, r1, u, timestamp);
    assert WithChangelog(old(tixi.root), header, timestamp) == Some(tixi.root);
    return Ok(());
  }

  /** The names of the entry's children are names addTextElement accepts. */
  lemma EntryNames()
    ensures ValidName("modification") && ValidName("creator") && ValidName("timestamp")
    ensures ValidName("version") && ValidName("cpacsVersion")
  {
  }

  /** The five children appended one after the other make the entry. */
  lemma EntryBuilt(timestamp: string)
    ensures AppendChild(AppendChild(AppendChild(AppendChild(AppendChild(Leaf("update", ""),
              Leaf("modification", "Converted to cpacs 3.0 using cpacs2to3")),
              Leaf("creator", "cpacs2to3")),
              Leaf("timestamp", timestamp)),
              Leaf("version", "ver1")),
              Leaf("cpacsVersion", "3.0"))
        == UpdateEntry(timestamp)
  {
  }

  /** The five addTextElement calls of add_changelog, on the update element
      just appended at u + [k] under the updates element at u. */
  method WriteEntry(tixi: Handle, xpath: string, ghost r1: Element, ghost u: seq<nat>, timestamp: string)
    modifies tixi
    requires ValidPos(r1, u)
    requires tixi.root == Put(r1, u, AppendChild(At(r1, u), Leaf("update", "")))
    requires Resolve(tixi.root, xpath) == Some(u + [|At(r1, u).children|])
    ensures tixi.root == Put(r1, u, AppendChild(At(r1, u), UpdateEntry(timestamp)))
  {
    EntryNames();
    ghost var x := Leaf("update", "");
    AddField(tixi, xpath, r1, u, x, "modification", "Converted to cpacs 3.0 using cpacs2to3");
    x := AppendChild(x, Leaf("modification", "Converted to cpacs 3.0 using cpacs2to3"));
    AddField(tixi, xpath, r1, u, x, "creator", "cpacs2to3");
    x := AppendChild(x, Leaf("creator", "cpacs2to3"));
    AddField(tixi, xpath, r1, u, x, "timestamp", timestamp);
    x := AppendChild(x, Leaf("timestamp", timestamp));
    AddField(tixi, xpath, r1, u, x, "version", "ver1");
    x := AppendChild(x, Leaf("version", "ver1"));
    AddField(tixi, xpath, r1, u, x, "cpacsVersion", "3.0");
    EntryBuilt(timestamp);
  }

  /** One addTextElement of add_changelog: the entry x under construction
      gains a text child as its last child. */
  method AddField(tixi: Handle, xpath: string, ghost r1: Element, ghost u: seq<nat>, ghost x: Element,
                  name: string, text: string)
    modifies tixi
    requires ValidPos(r1, u) && x.name == "update" && ValidName(name)
    requires Resolve(Put(r1, u, AppendChild(At(r1, u), Leaf("update", ""))), xpath) == Some(u + [|At(r1, u).children|])
    requires tixi.root == Put(r1, u, AppendChild(At(r1, u), x))
    ensures tixi.root == Put(r1, u, AppendChild(At(r1, u), AppendChild(x, Leaf(name, text))))
  {
    FillEntry(r1, u, xpath, x, Leaf(name, text));
    var a := tixi.AddTextElement(xpath, name, text);
    if a.Err? {
      assert false;
    }
  }

  /** add_changelog on the CPACS header. */
  method AddChangelog(tixi: Handle, timestamp: string) returns (r: Result<()>)
    modifies tixi
    ensures r.Ok? <==> WithChangelog(old(tixi.root), HeaderPath, timestamp).Some?
    ensures r.Ok? ==> tixi.root == WithChangelog(old(tixi.root), HeaderPath, timestamp).value
  {
    r := AddChangelogUnder(tixi, HeaderPath, timestamp);
  }
}
