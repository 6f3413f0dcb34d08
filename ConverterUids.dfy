/** The uID back-fill of the converter: the older copy of the uID
    generator, add_uid, which gives an element a uID only when it has none,
    and add_missing_uids, which runs add_uid over the paths the XPath
    engine found (given here as sequences). */
module ConverterUids {
  import opened Wrappers
  import opened Text
  import opened Xml
  import opened Tixi
  import opened TixiHelper
  import opened UidGenerator
  import opened Edits

  /** The generator as the converter defines it: register never fails. */
  class LegacyUIDGenerator {
    /** Set to 0 and never used afterwards. */
    var counter: int
    var uids: set<string>

    constructor ()
      ensures counter == 0 && uids == {}
    {
      counter := 0;
      uids := {};
    }

    /** uid_exists */
    predicate UidExists(uid: string)
      reads this
    {
      uid in uids
    }

    /** register: adds uid; registering a uid twice is registering it once. */
    method Register(uid: string)
      modifies this
      ensures uids == old(uids) + {uid}
      ensures uid in old(uids) ==> uids == old(uids)
      ensures counter == old(counter)
    {
      uids := uids + {uid};
    }

    /** create: the uID of the nearest ancestor that has one, '_', the
        element name and the first counter value giving an unregistered
        uID; the result is registered. */
    method Create(tixi: Handle, currentPath: string) returns (r: Result<string>)
      modifies this
      ensures r.Ok? <==> ParentUidAndName(tixi.root, currentPath).Ok?
      ensures r.Ok? ==> CreatesUid(old(uids), tixi.root, currentPath, r.value)
      ensures r.Ok? ==> r.value !in old(uids) && uids == old(uids) + {r.value}
      ensures r.Err? ==> uids == old(uids)
      ensures counter == old(counter)
    {
      var pn :- NextParentUid(tixi, currentPath);
      var parentUid, elem := pn.0, pn.1;
      var k: nat := 1;
      var newUid := parentUid + "_" + elem + NatToString(k);
      while UidExists(newUid)
        invariant 1 <= k && newUid == Candidate(parentUid + "_" + elem, k)
        invariant forall j :: 1 <= j < k ==> Candidate(parentUid + "_" + elem, j) in uids
        invariant uids == old(uids) && counter == old(counter)
        decreases |uids| + 1 - k
      {
        CandidatesBound(uids, parentUid + "_" + elem, k);
        k := k + 1;
        newUid := parentUid + "_" + elem + NatToString(k);
      }
      assert IsFirstFree(uids, parentUid + "_" + elem, newUid);
      Register(newUid);
      return Ok(newUid);
    }
  }

  // ----- add_uid -------------------------------------------------------------

  /** The document after add_uid: unchanged if the element is missing or
      already has a uID, else with the uID attribute added. */
  function WithUid(root: Element, xpath: string, uid: string): Element
  {
    match Resolve(root, xpath)
    case None => root
    case Some(p) =>
      var e := At(root, p);
      if "uID" in e.attrs then root else Put(root, p, e.(attrs := e.attrs["uID" := uid]))
  }

  /** add_uid never overwrites: afterwards the element has a uID exactly
      when it exists, and that uID is the old one if it had one, else the
      given one; every path still leads where it led. */
  lemma WithUidSpec(root: Element, xpath: string, uid: string)
    ensures CheckAttribute(WithUid(root, xpath, uid), xpath, "uID") <==> CheckElement(root, xpath)
    ensures CheckElement(root, xpath) ==>
      GetTextAttribute(WithUid(root, xpath, uid), xpath, "uID") ==
        if CheckAttribute(root, xpath, "uID") then GetTextAttribute(root, xpath, "uID") else Ok(uid)
    ensures forall path :: Resolve(WithUid(root, xpath, uid), path) == Resolve(root, path)
  {
    match Resolve(root, xpath)
    case None =>
    case Some(p) =>
      var e := At(root, p);
      if "uID" !in e.attrs {
        var x := e.(attrs := e.attrs["uID" := uid]);
        AttrEdit(root, p, x, p);
        forall path
          ensures Resolve(WithUid(root, xpath, uid), path) == Resolve(root, path)
        {
          ResolveAttrEdit(root, path, p, x);
        }
      }
  }

  /** Applying add_uid twice, with any second uID, is applying it once. */
  lemma WithUidIdempotent(root: Element, xpath: string, uid: string, uid2: string)
    ensures WithUid(WithUid(root, xpath, uid), xpath, uid2) == WithUid(root, xpath, uid)
  {
    WithUidSpec(root, xpath, uid);
    match Resolve(root, xpath)
    case None =>
    case Some(p) =>
      var e := At(root, p);
      if "uID" !in e.attrs {
        AttrEdit(root, p, e.(attrs := e.attrs["uID" := uid]), p);
      }
  }

  /** add_uid */
  method AddUid(tixi: Handle, xpath: string, uid: string)
    modifies tixi
    ensures tixi.root == WithUid(old(tixi.root), xpath, uid)
  {
    if !CheckElement(tixi.root, xpath) {
      return;
    }
    if !CheckAttribute(tixi.root, xpath, "uID") {
      var r := tixi.AddTextAttribute(xpath, "uID", uid);
      if r.Err? {
        assert false;
      }
    }
  }

  // ----- add_missing_uids ----------------------------------------------------

  /** The element at q had no uID in a and has one in b. */
  ghost predicate Gained(a: Element, b: Element, q: seq<nat>)
  {
    ValidPos(a, q) && ValidPos(b, q) && "uID" !in At(a, q).attrs && "uID" in At(b, q).attrs
  }

  /** b is a with uIDs added and nothing else changed: every path leads
      where it led, every element keeps its name, text and attributes,
      except that elements at `targets` without a uID may have gained one,
      taken from `issued`, no two of them the same. */
  ghost predicate Backfilled(a: Element, b: Element, issued: set<string>, targets: set<seq<nat>>)
  {
    && (forall path :: Resolve(b, path) == Resolve(a, path))
    && (forall q :: ValidPos(b, q) <==> ValidPos(a, q))
    && (forall q :: ValidPos(a, q) && ValidPos(b, q) ==>
          At(b, q).name == At(a, q).name && At(b, q).text == At(a, q).text)
    && (forall q :: ValidPos(a, q) && ValidPos(b, q) && !Gained(a, b, q) ==> At(b, q).attrs == At(a, q).attrs)
    && (forall q :: Gained(a, b, q) ==>
          && At(b, q).attrs == At(a, q).attrs["uID" := At(b, q).attrs["uID"]]
          && At(b, q).attrs["uID"] in issued
          && q in targets)
    && (forall q1, q2 :: Gained(a, b, q1) && Gained(a, b, q2) && q1 != q2 ==>
          At(b, q1).attrs["uID"] != At(b, q2).attrs["uID"])
  }

  lemma BackfilledRefl(a: Element)
    ensures Backfilled(a, a, {}, {})
  {
  }

  /** More issued uIDs and more targets allowed: still back-filled. */
  lemma BackfilledWeaken(a: Element, b: Element, f1: set<string>, t1: set<seq<nat>>, f2: set<string>, t2: set<seq<nat>>)
    requires Backfilled(a, b, f1, t1) && f1 <= f2 && t1 <= t2
    ensures Backfilled(a, b, f2, t2)
  {
  }

  /** Adding one new uID u, not among `issued`, at a target that lacks one
      keeps the document back-filled from a. */
  lemma BackfillStep(a: Element, b: Element, issued: set<string>, targets: set<seq<nat>>, p: seq<nat>, u: string)
    requires Backfilled(a, b, issued, targets)
    requires ValidPos(b, p) && "uID" !in At(b, p).attrs && p in targets && u !in issued
    ensures var x := At(b, p).(attrs := At(b, p).attrs["uID" := u]);
      Backfilled(a, Put(b, p, x), issued + {u}, targets)
  {
    var x := At(b, p).(attrs := At(b, p).attrs["uID" := u]);
    var b' := Put(b, p, x);
    forall path
      ensures Resolve(b', path) == Resolve(a, path)
    {
      ResolveAttrEdit(b, path, p, x);
    }
    forall q
      ensures ValidPos(b', q) <==> ValidPos(a, q)
      ensures ValidPos(a, q) ==> ValidPos(b', q) && ValidPos(b, q)
      ensures ValidPos(a, q) && q != p ==>
        At(b', q).name == At(b, q).name && At(b', q).attrs == At(b, q).attrs && At(b', q).text == At(b, q).text
      ensures q == p ==> At(b', q) == x
    {
      AttrEdit(b, p, x, q);
    }
    assert !Gained(a, b, p);
    assert Gained(a, b', p);
    forall q | Gained(a, b', q) && q != p
      ensures Gained(a, b, q) && At(b', q).attrs["uID"] != u
    {
    }
  }

  /** The positions the given paths lead to in root. */
  ghost function Positions(root: Element, paths: seq<string>): set<seq<nat>>
  {
    set i | 0 <= i < |paths| && Resolve(root, paths[i]).Some? :: Resolve(root, paths[i]).value
  }

  lemma PositionsSnoc(root: Element, paths: seq<string>, path: string)
    ensures Positions(root, paths + [path]) ==
      Positions(root, paths) + if Resolve(root, path).Some? then {Resolve(root, path).value} else {}
  {
    var ps := paths + [path];
    forall q | q in Positions(root, ps)
      ensures q in Positions(root, paths) + if Resolve(root, path).Some? then {Resolve(root, path).value} else {}
    {
      var i :| 0 <= i < |ps| && Resolve(root, ps[i]).Some? && Resolve(root, ps[i]).value == q;
      if i < |paths| {
        assert ps[i] == paths[i];
      }
    }
    forall q | q in Positions(root, paths)
      ensures q in Positions(root, ps)
    {
      var i :| 0 <= i < |paths| && Resolve(root, paths[i]).Some? && Resolve(root, paths[i]).value == q;
      assert ps[i] == paths[i];
    }
    if Resolve(root, path).Some? {
      assert ps[|paths|] == path;
    }
  }

  /** Every path of `done` that led to an element in a leads to one with a
      uID in b. */
  ghost predicate Covered(a: Element, b: Element, done: seq<string>)
  {
    forall j :: 0 <= j < |done| && CheckElement(a, done[j]) ==> CheckAttribute(b, done[j], "uID")
  }

  /** The four paths add_missing_uids fills for one transformation. */
  function TransformationParts(t: string): seq<string>
  {
    [t, t + "/rotation", t + "/scaling", t + "/translation"]
  }

  /** The paths add_missing_uids fills for the transformations ts, in order. */
  function TransformationPaths(ts: seq<string>): (r: seq<string>)
    ensures |r| == 4 * |ts|
  {
    if ts == [] then [] else TransformationPaths(ts[..|ts| - 1]) + TransformationParts(ts[|ts| - 1])
  }

  /** One create-then-add_uid call of add_missing_uids, on the document and
      generator reached so far from root0 and uids0. */
  method FillOne(tixi: Handle, gen: LegacyUIDGenerator, path: string,
                 ghost root0: Element, ghost uids0: set<string>, ghost done: seq<string>, ghost next: seq<string>)
      returns (r: Result<()>)
    modifies tixi, gen
    requires next == done + [path]
    requires uids0 <= gen.uids
    requires Backfilled(root0, tixi.root, gen.uids - uids0, Positions(root0, done))
    requires Covered(root0, tixi.root, done)
    ensures uids0 <= gen.uids
    ensures Backfilled(root0, tixi.root, gen.uids - uids0, Positions(root0, next))
    ensures r.Ok? <==> ParentUidAndName(old(tixi.root), path).Ok?
    ensures r.Ok? ==> Covered(root0, tixi.root, next)
    ensures r.Err? ==> tixi.root == old(tixi.root) && gen.uids == old(gen.uids)
  {
    PositionsSnoc(root0, done, path);
    ghost var targets := Positions(root0, done + [path]);
    BackfilledWeaken(root0, tixi.root, gen.uids - uids0, Positions(root0, done), gen.uids - uids0, targets);
    var c := gen.Create(tixi, path);
    if c.Err? {
      return Err(c.error);
    }
    var uid := c.value;
    ghost var b := tixi.root;
    ghost var issued := old(gen.uids) - uids0;
    assert uid !in issued;
    assert gen.uids - uids0 == issued + {uid};
    AddUid(tixi, path, uid);
    WithUidSpec(b, path, uid);
    if Resolve(b, path).None? || "uID" in At(b, Resolve(b, path).value).attrs {
      BackfilledWeaken(root0, b, issued, targets, issued + {uid}, targets);
    } else {
      BackfillStep(root0, b, issued, targets, Resolve(b, path).value, uid);
    }
    assert Resolve(b, path) == Resolve(root0, path);
    CoveredStep(root0, b, done, path, uid);
    return Ok(());
  }

  /** Adding a uID at path keeps the earlier paths covered and covers
      path itself. */
  lemma CoveredStep(root0: Element, b: Element, done: seq<string>, path: string, uid: string)
    requires Covered(root0, b, done)
    requires Resolve(b, path) == Resolve(root0, path)
    ensures Covered(root0, WithUid(b, path, uid), done + [path])
  {
    WithUidSpec(b, path, uid);
    var d := done + [path];
    forall j | 0 <= j < |d| && CheckElement(root0, d[j])
      ensures CheckAttribute(WithUid(b, path, uid), d[j], "uID")
    {
      if j < |done| {
        assert d[j] == done[j];
        var q := Resolve(b, d[j]).value;
        if Resolve(b, path).Some? && "uID" !in At(b, Resolve(b, path).value).attrs {
          var p := Resolve(b, path).value;
          AttrEdit(b, p, At(b, p).(attrs := At(b, p).attrs["uID" := uid]), q);
        }
      }
    }
  }

  /** create-then-add_uid for each of `paths` in turn; on an error the
      remaining paths are skipped. */
  method FillAll(tixi: Handle, gen: LegacyUIDGenerator, paths: seq<string>,
                 ghost root0: Element, ghost uids0: set<string>, ghost done: seq<string>)
      returns (r: Result<()>)
    modifies tixi, gen
    requires uids0 <= gen.uids
    requires Backfilled(root0, tixi.root, gen.uids - uids0, Positions(root0, done))
    requires Covered(root0, tixi.root, done)
    ensures uids0 <= gen.uids
    ensures Backfilled(root0, tixi.root, gen.uids - uids0, Positions(root0, done + paths))
    ensures r.Ok? ==> Covered(root0, tixi.root, done + paths)
  {
    assert done + paths[..0] == done;
    for k := 0 to |paths|
      invariant uids0 <= gen.uids
      invariant Backfilled(root0, tixi.root, gen.uids - uids0, Positions(root0, done + paths[..k]))
      invariant Covered(root0, tixi.root, done + paths[..k])
    {
      ghost var before, after := done + paths[..k], done + paths[..k + 1];
      PrefixStep(done, paths, k);
      var f := FillOne(tixi, gen, paths[k], root0, uids0, before, after);
      if f.Err? {
        BackfilledPrefix(root0, tixi.root, gen.uids - uids0, done, paths, k + 1);
        return Err(f.error);
      }
    }
    assert paths[..|paths|] == paths;
    return Ok(());
  }

  /** add_missing_uids: a uID for each transformation and its rotation,
      scaling and translation, then for each of the other matched elements;
      each uID is created (and registered) before add_uid looks at the
      element. */
  method AddMissingUids(tixi: Handle, gen: LegacyUIDGenerator, transformations: seq<string>, others: seq<string>)
      returns (r: Result<()>)
    modifies tixi, gen
    ensures old(gen.uids) <= gen.uids
    ensures Backfilled(old(tixi.root), tixi.root, gen.uids - old(gen.uids),
                       Positions(old(tixi.root), TransformationPaths(transformations) + others))
    ensures r.Ok? ==> Covered(old(tixi.root), tixi.root, TransformationPaths(transformations) + others)
  {
    ghost var root0 := tixi.root;
    ghost var uids0 := gen.uids;
    ghost var all := TransformationPaths(transformations) + others;
    BackfilledRefl(root0);
    assert Positions(root0, []) == {};
    ghost var done: seq<string> := [];
    for i := 0 to |transformations|
      invariant done == TransformationPaths(transformations[..i])
      invariant uids0 <= gen.uids
      invariant Backfilled(root0, tixi.root, gen.uids - uids0, Positions(root0, done))
      invariant Covered(root0, tixi.root, done)
    {
      assert transformations[..i + 1][..i] == transformations[..i];
      r := FillAll(tixi, gen, TransformationParts(transformations[i]), root0, uids0, done);
      done := done + TransformationParts(transformations[i]);
      if r.Err? {
        TransformationPathsPrefix(transformations, i + 1);
        PositionsMono(root0, done, all);
        BackfilledWeaken(root0, tixi.root, gen.uids - uids0, Positions(root0, done),
                         gen.uids - uids0, Positions(root0, all));
        return;
      }
    }
    assert transformations[..|transformations|] == transformations;
    r := FillAll(tixi, gen, others, root0, uids0, done);
  }

  /** The paths of the first n transformations come first. */
  lemma {:induction false} TransformationPathsPrefix(ts: seq<string>, n: nat)
    requires n <= |ts|
    ensures TransformationPaths(ts[..n]) <= TransformationPaths(ts)
    decreases |ts|
  {
    if n < |ts| {
      var init := ts[..|ts| - 1];
      assert init[..n] == ts[..n];
      TransformationPathsPrefix(init, n);
    } else {
      assert ts[..n] == ts;
    }
  }

  /** One more path extends the prefix by one. */
  lemma PrefixStep(done: seq<string>, paths: seq<string>, k: nat)
    requires k < |paths|
    ensures done + paths[..k] + [paths[k]] == done + paths[..k + 1]
  {
    assert paths[..k + 1] == paths[..k] + [paths[k]];
  }

  /** Back-filled for the first k of the paths is back-filled for all. */
  lemma BackfilledPrefix(a: Element, b: Element, issued: set<string>, done: seq<string>, paths: seq<string>, k: nat)
    requires k <= |paths| && Backfilled(a, b, issued, Positions(a, done + paths[..k]))
    ensures Backfilled(a, b, issued, Positions(a, done + paths))
  {
    PositionsMono(a, done + paths[..k], done + paths);
    BackfilledWeaken(a, b, issued, Positions(a, done + paths[..k]), issued, Positions(a, done + paths));
  }

  /** A prefix of the paths leads to fewer positions. */
  lemma PositionsMono(root: Element, done: seq<string>, all: seq<string>)
    requires done <= all
    ensures Positions(root, done) <= Positions(root, all)
  {
    forall q | q in Positions(root, done)
      ensures q in Positions(root, all)
    {
      var i :| 0 <= i < |done| && Resolve(root, done[i]).Some? && Resolve(root, done[i]).value == q;
      assert all[i] == done[i];
    }
  }
}
