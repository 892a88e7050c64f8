/** The reducer that rebuilds repository contracts from the capture events of one API file.
    The query yields one match for the package clause and then one match per method element
    of every interface whose name ends in `Repository` (one match with only the class name
    for an interface without methods); the events arrive here after predicate filtering, so
    a filtered-out match is an empty list. */
module RepoScan {
  import opened GoStrings
  import opened Types
  import opened ParamList

  /** The capture indices of the query, in the order the query declares them. */
  datatype Kind = PkgName | ClassName | MethodName | ParamsList | ResultList

  datatype Capture = Capture(kind: Kind, text: string)

  /** The reducer's cursors: the records so far, the current record and the current method. */
  datatype State = State(repos: seq<Repository>, curIdx: nat, methodIdx: nat)

  /** The method cursor sits on the last method, and on 0 while there is none. */
  predicate Cursor(ms: seq<Method>, k: nat) {
    if ms == [] then k == 0 else k == |ms| - 1
  }

  /** The current record is always the last one. */
  predicate Valid(st: State) {
    |st.repos| >= 1 && st.curIdx == |st.repos| - 1 && Cursor(st.repos[st.curIdx].methods, st.methodIdx)
  }

  /** Before the first event: one pre-created empty record. */
  function Initial(): (st: State)
    ensures Valid(st)
  {
    State([EmptyRepository()], 0, 0)
  }

  const SlicePanic := "runtime error: slice bounds out of range [1:0]"

  /** `parseParams` as the reducer calls it on a capture's text. */
  function ParamsOf(text: string): Result<seq<Param>> {
    if text == "(" then Err(Panic(SlicePanic)) else Ok(ParamsSpec(text))
  }

  /** One event. Records before the current one are never touched and none is removed. */
  function Step(st: State, c: Capture): (r: Result<State>)
    requires Valid(st)
    ensures r.Ok? ==> Valid(r.value)
    ensures r.Ok? ==> |r.value.repos| >= |st.repos|
    ensures r.Ok? ==> r.value.repos[..st.curIdx] == st.repos[..st.curIdx]
    ensures r.Err? ==> r.error.Panic?
    ensures r.Err? <==> (c.kind == ParamsList || c.kind == ResultList)
                        && (st.repos[st.curIdx].methods == [] || c.text == "(")
  {
    var repo := st.repos[st.curIdx];
    match c.kind
    case ClassName =>
      if repo.ident == c.text then Ok(st)
      else if repo.ident != "" then
        Ok(State(st.repos + [EmptyRepository().(ident := c.text)], st.curIdx + 1, 0))
      else Ok(st.(repos := st.repos[st.curIdx := repo.(ident := c.text)]))
    case MethodName =>
      if repo.methods == [] then
        Ok(st.(repos := st.repos[st.curIdx := repo.(methods := [Method(c.text, [], [])])]))
      else if repo.methods[st.methodIdx].ident != c.text then
        var ms := repo.methods + [Method(c.text, [], [])];
        Ok(State(st.repos[st.curIdx := repo.(methods := ms)], st.curIdx, st.methodIdx + 1))
      else Ok(st)
    case ParamsList =>
      if repo.methods == [] then Err(Panic(IndexPanic))
      else (match ParamsOf(c.text)
        case Err(e) => Err(e)
        case Ok(ps) =>
          var ms := repo.methods[st.methodIdx := repo.methods[st.methodIdx].(params := ps)];
          Ok(st.(repos := st.repos[st.curIdx := repo.(methods := ms)])))
    case ResultList =>
      if repo.methods == [] then Err(Panic(IndexPanic))
      else (match ParamsOf(c.text)
        case Err(e) => Err(e)
        case Ok(ps) =>
          var ms := repo.methods[st.methodIdx := repo.methods[st.methodIdx].(results := ps)];
          Ok(st.(repos := st.repos[st.curIdx := repo.(methods := ms)])))
    case PkgName =>
      // a package capture after the first match is only logged
      Ok(st)
  }

  /** The events of one match, in order; the first panic ends the scan. */
  function RunCaptures(st: State, cs: seq<Capture>): (r: Result<State>)
    requires Valid(st)
    ensures r.Ok? ==> Valid(r.value)
    ensures r.Err? ==> r.error.Panic?
    decreases |cs|
  {
    if cs == [] then Ok(st)
    else match Step(st, cs[0])
      case Err(e) => Err(e)
      case Ok(s) => RunCaptures(s, cs[1..])
  }

  function RunMatches(st: State, ms: seq<seq<Capture>>): (r: Result<State>)
    requires Valid(st)
    ensures r.Ok? ==> Valid(r.value)
    ensures r.Err? ==> r.error.Panic?
    decreases |ms|
  {
    if ms == [] then Ok(st)
    else match RunCaptures(st, ms[0])
      case Err(e) => Err(e)
      case Ok(s) => RunMatches(s, ms[1..])
  }

  /** Every record gets the file's package name and import list. */
  function Finish(repos: seq<Repository>, pkg: string, imports: seq<Import>): (r: seq<Repository>)
    ensures |r| == |repos|
  {
    seq(|repos|, i requires 0 <= i < |repos| => repos[i].(pkg := pkg, imports := imports))
  }

  /** What `parseRepositories` returns for the matches of one file and its import list. */
  function ScanSpec(matches: seq<seq<Capture>>, imports: seq<Import>): (r: Result<seq<Repository>>)
    ensures r == Err(NoPackage) <==> matches != [] && |matches[0]| != 1
    ensures r.Ok? && r.value != [] ==> |matches| > 1 && |matches[0]| == 1
    ensures r.Ok? && r.value != [] ==>
      forall i :: 0 <= i < |r.value| ==> r.value[i].pkg == matches[0][0].text && r.value[i].imports == imports
  {
    if matches == [] then Ok([])
    else if |matches[0]| != 1 then Err(NoPackage)
    else if |matches| == 1 then Ok([])
    else match RunMatches(Initial(), matches[1..])
      case Err(e) => Err(e)
      case Ok(st) => Ok(Finish(st.repos, matches[0][0].text, imports))
  }

  /** The events of one match applied to the cursors, as the inner loop does it. */
  method ReduceMatch(repos0: seq<Repository>, curIdx0: nat, methodIdx0: nat, captures: seq<Capture>)
    returns (r: Result<State>)
    requires Valid(State(repos0, curIdx0, methodIdx0))
    ensures r == RunCaptures(State(repos0, curIdx0, methodIdx0), captures)
  {
    var repos: seq<Repository>, curIdx: nat, methodIdx: nat := repos0, curIdx0, methodIdx0;
    for j := 0 to |captures|
      invariant Valid(State(repos, curIdx, methodIdx))
      invariant RunCaptures(State(repos, curIdx, methodIdx), captures[j..])
             == RunCaptures(State(repos0, curIdx0, methodIdx0), captures)
    {
      var c := captures[j];
      var repo := repos[curIdx];
      ghost var before := State(repos, curIdx, methodIdx);
      match c.kind {
        case ClassName =>
          if repo.ident == c.text {
          } else if repo.ident != "" {
            methodIdx := 0;
            curIdx := curIdx + 1;
            repos := repos + [EmptyRepository().(ident := c.text)];
          } else {
            repos := repos[curIdx := repo.(ident := c.text)];
          }
          assert Step(before, c) == Ok(State(repos, curIdx, methodIdx));
        case MethodName =>
          var cur: Method;
          if |repo.methods| == 0 {
            cur := Method(c.text, [], []);
            assert repo.methods + [cur] == [cur];
            repo := repo.(methods := repo.methods + [cur]);
          } else {
            cur := repo.methods[methodIdx];
            assert repos[curIdx := repo] == repos;
          }
          if cur.ident != c.text {
            methodIdx := methodIdx + 1;
            repo := repo.(methods := repo.methods + [Method(c.text, [], [])]);
          }
          repos := repos[curIdx := repo];
          assert Step(before, c) == Ok(State(repos, curIdx, methodIdx));
        case ParamsList =>
          if methodIdx >= |repo.methods| {
            return Err(Panic(IndexPanic));
          }
          if c.text == "(" {
            return Err(Panic(SlicePanic));
          }
          var ps := ParseParams(c.text);
          var m := repo.methods[methodIdx].(params := ps);
          repos := repos[curIdx := repo.(methods := repo.methods[methodIdx := m])];
          assert Step(before, c) == Ok(State(repos, curIdx, methodIdx));
        case ResultList =>
          if methodIdx >= |repo.methods| {
            return Err(Panic(IndexPanic));
          }
          if c.text == "(" {
            return Err(Panic(SlicePanic));
          }
          var ps := ParseParams(c.text);
          var m := repo.methods[methodIdx].(results := ps);
          repos := repos[curIdx := repo.(methods := repo.methods[methodIdx := m])];
          assert Step(before, c) == Ok(State(repos, curIdx, methodIdx));
        case PkgName =>
      }
      assert Step(before, c) == Ok(State(repos, curIdx, methodIdx));
      assert captures[j..][1..] == captures[j + 1..];
    }
    assert captures[|captures|..] == [];
    r := Ok(State(repos, curIdx, methodIdx));
  }

  /** `parseRepositories` after the tree-sitter query: the package match, then the reducer
      over every later match, then the deferred assignment of package and imports. */
  method ScanRepositories(matches: seq<seq<Capture>>, imports: seq<Import>)
    returns (r: Result<seq<Repository>>)
    ensures r == ScanSpec(matches, imports)
  {
    if |matches| == 0 {
      return Ok([]);
    }
    if |matches[0]| != 1 {
      return Err(NoPackage);
    }
    var pkg := matches[0][0].text;
    if |matches| == 1 {
      return Ok([]);
    }
    var repos: seq<Repository>, curIdx: nat, methodIdx: nat := [EmptyRepository()], 0, 0;
    var i := 1;
    while i < |matches|
      invariant 1 <= i <= |matches|
      invariant Valid(State(repos, curIdx, methodIdx))
      invariant RunMatches(State(repos, curIdx, methodIdx), matches[i..]) == RunMatches(Initial(), matches[1..])
    {
      var res := ReduceMatch(repos, curIdx, methodIdx, matches[i]);
      if res.Err? {
        return Err(res.error);
      }
      assert matches[i..][1..] == matches[i + 1..];
      repos, curIdx, methodIdx := res.value.repos, res.value.curIdx, res.value.methodIdx;
      i := i + 1;
    }
    assert matches[i..] == [];
    var out := repos;
    for k := 0 to |out|
      invariant |out| == |repos|
      invariant out[..k] == Finish(repos, pkg, imports)[..k]
      invariant out[k..] == repos[k..]
    {
      out := out[k := out[k].(imports := imports, pkg := pkg)];
    }
    assert out == out[..|out|];
    assert Finish(repos, pkg, imports)[..|out|] == Finish(repos, pkg, imports);
    assert RunMatches(Initial(), matches[1..]) == Ok(State(repos, curIdx, methodIdx));
    return Ok(out);
  }
}
