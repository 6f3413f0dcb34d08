/** The path-string helpers of the converter: splitting an element path
    such as "/cpacs/header/updates/update[2]" into its parent path and
    its last step, and stripping a positional predicate "[n]" (the
    abbreviated step syntax of XPath 1.0, section 2.5). */
module Paths {
  import opened Wrappers
  import opened Text

  /** parent_path: everything before the last '/'. When there is no '/',
      rfind gives -1 and Python's x[:-1] drops the last character. */
  function ParentPath(x: string): string
  {
    var i := RFind(x, '/');
    if i >= 0 then x[..i] else if |x| > 0 then x[..|x| - 1] else ""
  }

  /** element_name: everything after the last '/' (all of x if it has none). */
  function ElementName(x: string): string
  {
    x[RFind(x, '/') + 1..]
  }

  /** With a '/' in x, the parent and the last step put back together give x. */
  lemma ParentElementRoundTrip(x: string)
    requires '/' in x
    ensures ParentPath(x) + "/" + ElementName(x) == x
    ensures '/' !in ElementName(x)
    ensures |ParentPath(x)| < |x|
  {
    var i := RFind(x, '/');
    RFindFound(x, '/');
    assert x == x[..i] + [x[i]] + x[i + 1..];
  }

  /** Without a '/', the step is the whole of x, while the parent loses
      only the last character (the rfind of -1 becomes a slice [:-1]). */
  lemma ParentElementNoSlash(x: string)
    requires '/' !in x
    ensures ElementName(x) == x
    ensures |x| > 0 ==> ParentPath(x) + [x[|x| - 1]] == x
  {
    RFindFound(x, '/');
  }

  /** The path with its trailing slashes removed, as the strip loop leaves it. */
  function TrimSlashes(s: string): (r: string)
    ensures r <= s
    ensures r == [] || r[|r| - 1] != '/'
    ensures forall j :: |r| <= j < |s| ==> s[j] == '/'
  {
    if |s| > 0 && s[|s| - 1] == '/' then TrimSlashes(s[..|s| - 1]) else s
  }

  /** The step name without a trailing positional predicate: the text from
      the last '[' on is dropped, unless that '[' is the first character. */
  function StripIndex(step: string): (r: string)
    ensures r <= step
    ensures |step| > 0 ==> |r| > 0
    ensures r != step ==> step[|r|] == '[' && '[' !in step[|r| + 1..]
  {
    var b := RFind(step, '[');
    if b > 0 then step[..b] else step
  }

  /** split_parent_child_path as a value: Err(EmptyPath) where Python's
      child_path[-1] fails, Err(NoSlash) where rindex('/') fails. */
  function ParentChild(childPath: string): Result<(string, string)>
  {
    var t := TrimSlashes(childPath);
    if t == [] then Err(EmptyPath)
    else
      var pos := RFind(t, '/');
      if pos < 0 then Err(NoSlash(t)) else Ok((t[..pos], StripIndex(t[pos + 1..])))
  }

  /** The split succeeds exactly when a '/' is left after trimming; then the
      parent and the raw last step rebuild the trimmed path, the parent is
      strictly shorter than the input, and the child is the raw step
      without its "[n]". */
  lemma ParentChildSpec(childPath: string)
    ensures ParentChild(childPath).Ok? <==> '/' in TrimSlashes(childPath)
    ensures ParentChild(childPath).Ok? ==>
      var t := TrimSlashes(childPath);
      var (parent, child) := ParentChild(childPath).value;
      && parent == ParentPath(t)
      && parent + "/" + ElementName(t) == t
      && child == StripIndex(ElementName(t))
      && |parent| < |childPath|
  {
    var t := TrimSlashes(childPath);
    RFindFound(t, '/');
    if '/' in t {
      ParentElementRoundTrip(t);
    }
  }

  /** split_parent_child_path (and its copies get_parent_child_path in the
      UID generator and in the converter): strip trailing slashes, split at
      the last '/', drop a "[n]" from the child. */
  method SplitParentChildPath(childPath: string) returns (r: Result<(string, string)>)
    ensures r == ParentChild(childPath)
  {
    var cp := childPath;
    while true
      invariant TrimSlashes(cp) == TrimSlashes(childPath)
      decreases |cp|
    {
      if cp == [] {
        return Err(EmptyPath);
      }
      if cp[|cp| - 1] != '/' {
        break;
      }
      cp := cp[..|cp| - 1];
    }
    var pos := RFind(cp, '/');
    if pos < 0 {
      return Err(NoSlash(cp));
    }
    var parent := cp[..pos];
    var child := cp[pos + 1..];
    var b := RFind(child, '[');
    if b > 0 {
      child := child[..b];
    }
    return Ok((parent, child));
  }

  /** resolve_xpaths: the empty expression yields no paths and the XPath
      engine is not consulted; any other expression yields what the engine
      found, given here as `matches`. */
  function ResolveXPaths(xpath: string, matches: seq<string>): (r: seq<string>)
    ensures xpath == "" ==> r == []
    ensures xpath != "" ==> r == matches
  {
    if xpath == "" then [] else matches
  }
}
