/** The uID generator: a set of the uIDs already in use, and the rule that
    makes a new uID from the nearest ancestor's uID and the element name,
    followed by the first counter value that gives an unused uID. */
module UidGenerator {
  import opened Wrappers
  import opened Text
  import opened Xml
  import opened Tixi
  import opened TixiHelper

  /** The uID make_unique_uid tries for counter value k. */
  function Candidate(proposed: string, k: nat): string
  {
    proposed + NatToString(k)
  }

  /** uid is the first of proposed1, proposed2, ... that is not taken. */
  ghost predicate IsFirstFree(taken: set<string>, proposed: string, uid: string)
  {
    exists k: nat :: 1 <= k && uid == Candidate(proposed, k) && uid !in taken
      && forall j :: 1 <= j < k ==> Candidate(proposed, j) in taken
  }

  /** Different counter values give different candidates. */
  lemma CandidateInjective(proposed: string, a: nat, b: nat)
    requires Candidate(proposed, a) == Candidate(proposed, b)
    ensures a == b
  {
    assert Candidate(proposed, a)[|proposed|..] == NatToString(a);
    assert Candidate(proposed, b)[|proposed|..] == NatToString(b);
    NatToStringInjective(a, b);
  }

  /** The first n candidates. */
  function Candidates(proposed: string, n: nat): (cs: set<string>)
    ensures forall j :: 1 <= j <= n ==> Candidate(proposed, j) in cs
  {
    set j | 1 <= j <= n :: Candidate(proposed, j)
  }

  /** The first n candidates are n distinct strings. */
  lemma {:induction false} CandidatesCount(proposed: string, n: nat)
    ensures |Candidates(proposed, n)| == n
  {
    if n > 0 {
      CandidatesCount(proposed, n - 1);
      var c := Candidate(proposed, n);
      assert Candidates(proposed, n) == Candidates(proposed, n - 1) + {c};
      if c in Candidates(proposed, n - 1) {
        var j :| 1 <= j <= n - 1 && Candidate(proposed, j) == c;
        CandidateInjective(proposed, j, n);
      }
    }
  }

  /** If the first k candidates are all taken, there are at least k taken
      uIDs: the search of make_unique_uid ends within |taken| + 1 steps. */
  lemma CandidatesBound(taken: set<string>, proposed: string, k: nat)
    requires forall j :: 1 <= j <= k ==> Candidate(proposed, j) in taken
    ensures k <= |taken|
  {
    CandidatesCount(proposed, k);
    assert Candidates(proposed, k) <= taken;
    SubsetCardinality(Candidates(proposed, k), taken);
  }

  lemma SubsetCardinality<T>(a: set<T>, b: set<T>)
    requires a <= b
    ensures |a| <= |b|
  {
    if a != {} {
      var x :| x in a;
      SubsetCardinality(a - {x}, b - {x});
    }
  }

  /** Whatever uIDs are taken, a first free candidate exists. */
  lemma {:induction false} FirstFreeExists(taken: set<string>, proposed: string)
    ensures exists uid :: IsFirstFree(taken, proposed, uid)
  {
    var k: nat := 1;
    while Candidate(proposed, k) in taken
      invariant 1 <= k
      invariant forall j :: 1 <= j < k ==> Candidate(proposed, j) in taken
      decreases |taken| + 1 - k
    {
      CandidatesBound(taken, proposed, k);
      k := k + 1;
    }
    assert IsFirstFree(taken, proposed, Candidate(proposed, k));
  }

  /** The first free candidate is unique: make_unique_uid is a function of
      the taken set and the proposal. */
  lemma FirstFreeUnique(taken: set<string>, proposed: string, u1: string, u2: string)
    requires IsFirstFree(taken, proposed, u1) && IsFirstFree(taken, proposed, u2)
    ensures u1 == u2
  {
    var k1: nat :| 1 <= k1 && u1 == Candidate(proposed, k1) && u1 !in taken
      && forall j :: 1 <= j < k1 ==> Candidate(proposed, j) in taken;
    var k2: nat :| 1 <= k2 && u2 == Candidate(proposed, k2) && u2 !in taken
      && forall j :: 1 <= j < k2 ==> Candidate(proposed, j) in taken;
    assert k1 < k2 ==> Candidate(proposed, k1) in taken;
    assert k2 < k1 ==> Candidate(proposed, k2) in taken;
  }

  /** What create returns for a document and a path when the generator
      holds `taken`: the first free uID built from the nearest ancestor's
      uID, '_' and the element name. */
  ghost predicate CreatesUid(taken: set<string>, root: Element, currentPath: string, uid: string)
  {
    && ParentUidAndName(root, currentPath).Ok?
    && var pn := ParentUidAndName(root, currentPath).value;
       IsFirstFree(taken, pn.0 + "_" + pn.1, uid)
  }

  class UIDGenerator {
    /** Set to 0 and never used afterwards. */
    var counter: int
    var uids: set<string>

    constructor ()
      ensures counter == 0 && uids == {}
    {
      counter := 0;
      uids := {};
    }

    /** uid_exists */
    predicate UidExists(uid: string)
      reads this
    {
      uid in uids
    }

    /** register: adds uid, and fails on a uid already registered. */
    method Register(uid: string) returns (r: Result<()>)
      modifies this
      ensures r.Ok? <==> uid !in old(uids)
      ensures r.Ok? ==> uids == old(uids) + {uid}
      ensures r.Err? ==> uids == old(uids) && r.error == DuplicateUid(uid)
      ensures counter == old(counter)
    {
      if UidExists(uid) {
        return Err(DuplicateUid(uid));
      }
      uids := uids + {uid};
      return Ok(());
    }

    /** make_unique_uid: the first of proposed1, proposed2, ... that is
        not registered. */
    method MakeUniqueUid(proposed: string) returns (uid: string)
      ensures IsFirstFree(uids, proposed, uid)
    {
      var k: nat := 1;
      uid := Candidate(proposed, k);
      while UidExists(uid)
        invariant 1 <= k && uid == Candidate(proposed, k)
        invariant forall j :: 1 <= j < k ==> Candidate(proposed, j) in uids
        decreases |uids| + 1 - k
      {
        CandidatesBound(uids, proposed, k);
        k := k + 1;
        uid := Candidate(proposed, k);
      }
    }

    /** create: a new uID for the element at currentPath, registered at
        once; it fails only where the walk to the nearest uID fails. */
    method Create(tixi: Handle, currentPath: string) returns (r: Result<string>)
      modifies this
      ensures r.Ok? <==> ParentUidAndName(tixi.root, currentPath).Ok?
      ensures r.Ok? ==> CreatesUid(old(uids), tixi.root, currentPath, r.value)
      ensures r.Ok? ==> r.value !in old(uids) && uids == old(uids) + {r.value}
      ensures r.Err? ==> uids == old(uids)
      ensures counter == old(counter)
    {
      var pn :- NextParentUid(tixi, currentPath);
      var newUid := MakeUniqueUid(pn.0 + "_" + pn.1);
      var reg := Register(newUid);
      if reg.Err? {
        assert false;
      }
      return Ok(newUid);
    }
  }
}
