/** What the repository reducer promises: for the event stream a file of interface
    declarations produces, it rebuilds exactly those contracts, in declaration order, each
    with its methods in order, every one carrying the file's package and imports. */
module RepoScanProps {
  import opened Types
  import opened ParamList
  import opened RepoScan

  /** A method element as declared: name, parameter-list text and optional result text. */
  datatype MethodDecl = MethodDecl(name: string, params: string, result: Option<string>)

  /** An interface declaration whose name ends in `Repository`. */
  datatype InterfaceDecl = InterfaceDecl(name: string, methods: seq<MethodDecl>)

  /** The events of the match for one method element. */
  function MethodEvents(className: string, m: MethodDecl): seq<Capture> {
    [Capture(ClassName, className), Capture(MethodName, m.name), Capture(ParamsList, m.params)]
      + (if m.result.Some? then [Capture(ResultList, m.result.value)] else [])
  }

  /** One match per method element, or a single class-name match without methods. */
  function InterfaceMatches(d: InterfaceDecl): (r: seq<seq<Capture>>)
    ensures r != []
  {
    if d.methods == [] then [[Capture(ClassName, d.name)]]
    else seq(|d.methods|, i requires 0 <= i < |d.methods| => MethodEvents(d.name, d.methods[i]))
  }

  function FileMatches(ds: seq<InterfaceDecl>): seq<seq<Capture>>
    decreases |ds|
  {
    if ds == [] then [] else InterfaceMatches(ds[0]) + FileMatches(ds[1..])
  }

  predicate WellFormedMethod(m: MethodDecl) {
    m.params != "(" && (m.result.Some? ==> m.result.value != "(")
  }

  /** Go rejects an interface with two methods of one name and two types of one name; the
      reducer only needs neighbours to differ. */
  predicate WellFormedMethods(ms: seq<MethodDecl>) {
    (forall i :: 0 <= i < |ms| ==> WellFormedMethod(ms[i]))
    && (forall i :: 0 < i < |ms| ==> ms[i - 1].name != ms[i].name)
  }

  predicate WellFormedDecls(ds: seq<InterfaceDecl>) {
    (forall i :: 0 <= i < |ds| ==> ds[i].name != "" && WellFormedMethods(ds[i].methods))
    && (forall i :: 0 < i < |ds| ==> ds[i - 1].name != ds[i].name)
  }

  function DecodeMethod(m: MethodDecl): Method
    requires WellFormedMethod(m)
  {
    Method(m.name, ParamsSpec(m.params), if m.result.Some? then ParamsSpec(m.result.value) else [])
  }

  function DecodeMethods(ms: seq<MethodDecl>): (r: seq<Method>)
    requires forall i :: 0 <= i < |ms| ==> WellFormedMethod(ms[i])
    ensures |r| == |ms|
  {
    seq(|ms|, i requires 0 <= i < |ms| => DecodeMethod(ms[i]))
  }

  /** The record the reducer should build for a declaration, before package and imports. */
  function Decode(name: string, ms: seq<MethodDecl>): Repository
    requires forall i :: 0 <= i < |ms| ==> WellFormedMethod(ms[i])
  {
    Repository("", "", "", name, DecodeMethods(ms), [])
  }

  function DecodeAll(ds: seq<InterfaceDecl>): (r: seq<Repository>)
    requires WellFormedDecls(ds)
    ensures |r| == |ds|
  {
    seq(|ds|, i requires 0 <= i < |ds| => Decode(ds[i].name, ds[i].methods))
  }

  function LastIdx(n: nat): nat {
    if n == 0 then 0 else n - 1
  }

  lemma RunCons(st: State, c: Capture, cs: seq<Capture>)
    requires Valid(st) && Step(st, c).Ok?
    ensures RunCaptures(st, [c] + cs) == RunCaptures(Step(st, c).value, cs)
  {
    assert ([c] + cs)[1..] == cs;
  }

  /** The state with the current record replaced and the method cursor moved. */
  function Put(st: State, r: Repository, k: nat): State
    requires Valid(st)
  {
    State(st.repos[st.curIdx := r], st.curIdx, k)
  }

  lemma PutFacts(st: State, a: Repository, ka: nat, b: Repository, kb: nat)
    requires Valid(st) && Cursor(a.methods, ka)
    ensures Valid(Put(st, a, ka)) && Put(st, a, ka).repos[st.curIdx] == a
    ensures Put(Put(st, a, ka), b, kb) == Put(st, b, kb)
  {
    assert st.repos[st.curIdx := a][st.curIdx := b] == st.repos[st.curIdx := b];
  }

  lemma StepMethodName(st: State, name: string)
    requires Valid(st)
    requires var ms := st.repos[st.curIdx].methods; ms == [] || ms[|ms| - 1].ident != name
    ensures var r := st.repos[st.curIdx];
      Step(st, Capture(MethodName, name)) == Ok(Put(st, r.(methods := r.methods + [Method(name, [], [])]), |r.methods|))
  {
    var r := st.repos[st.curIdx];
    assert r.methods == [] ==> r.methods + [Method(name, [], [])] == [Method(name, [], [])];
  }

  lemma StepParams(st: State, text: string)
    requires Valid(st) && st.repos[st.curIdx].methods != [] && text != "("
    ensures var r := st.repos[st.curIdx]; var k := st.methodIdx;
      Step(st, Capture(ParamsList, text))
        == Ok(Put(st, r.(methods := r.methods[k := r.methods[k].(params := ParamsSpec(text))]), k))
  {
  }

  lemma StepResults(st: State, text: string)
    requires Valid(st) && st.repos[st.curIdx].methods != [] && text != "("
    ensures var r := st.repos[st.curIdx]; var k := st.methodIdx;
      Step(st, Capture(ResultList, text))
        == Ok(Put(st, r.(methods := r.methods[k := r.methods[k].(results := ParamsSpec(text))]), k))
  {
  }

  /** The current record after the method-name event, the parameter event and the result
      event of method element `m`. */
  function Named(name: string, done: seq<MethodDecl>, m: MethodDecl): Repository
    requires WellFormedMethods(done)
  {
    Decode(name, done).(methods := DecodeMethods(done) + [Method(m.name, [], [])])
  }

  function WithParams(name: string, done: seq<MethodDecl>, m: MethodDecl): Repository
    requires WellFormedMethods(done) && WellFormedMethod(m)
  {
    Decode(name, done).(methods := DecodeMethods(done) + [Method(m.name, ParamsSpec(m.params), [])])
  }

  lemma DecodeSnoc(done: seq<MethodDecl>, m: MethodDecl)
    requires WellFormedMethods(done) && WellFormedMethod(m)
    ensures DecodeMethods(done + [m]) == DecodeMethods(done) + [DecodeMethod(m)]
  {
  }

  lemma SnocUpdate(ms: seq<Method>, x: Method, y: Method)
    ensures (ms + [x])[|ms| := y] == ms + [y]
  {
  }

  lemma NameEvent(st: State, name: string, done: seq<MethodDecl>, m: MethodDecl)
    requires Valid(st) && WellFormedMethods(done) && st.repos[st.curIdx] == Decode(name, done)
    requires done == [] || done[|done| - 1].name != m.name
    ensures Step(st, Capture(MethodName, m.name)) == Ok(Put(st, Named(name, done, m), |done|))
  {
    StepMethodName(st, m.name);
  }

  lemma ParamsEvent(st: State, name: string, done: seq<MethodDecl>, m: MethodDecl)
    requires Valid(st) && WellFormedMethods(done) && WellFormedMethod(m)
    ensures Valid(Put(st, Named(name, done, m), |done|))
    ensures Step(Put(st, Named(name, done, m), |done|), Capture(ParamsList, m.params))
         == Ok(Put(st, WithParams(name, done, m), |done|))
  {
    var a := Named(name, done, m);
    var b := WithParams(name, done, m);
    PutFacts(st, a, |done|, b, |done|);
    StepParams(Put(st, a, |done|), m.params);
    SnocUpdate(DecodeMethods(done), Method(m.name, [], []), Method(m.name, ParamsSpec(m.params), []));
  }

  lemma ResultEvent(st: State, name: string, done: seq<MethodDecl>, m: MethodDecl)
    requires Valid(st) && WellFormedMethods(done) && WellFormedMethod(m) && m.result.Some?
    ensures Valid(Put(st, WithParams(name, done, m), |done|))
    ensures Step(Put(st, WithParams(name, done, m), |done|), Capture(ResultList, m.result.value))
         == Ok(Put(st, Decode(name, done + [m]), |done|))
  {
    var b := WithParams(name, done, m);
    var c := Decode(name, done + [m]);
    PutFacts(st, b, |done|, c, |done|);
    StepResults(Put(st, b, |done|), m.result.value);
    DecodeSnoc(done, m);
    SnocUpdate(DecodeMethods(done), Method(m.name, ParamsSpec(m.params), []), DecodeMethod(m));
  }

  /** The events of one method element append that method to the current record. */
  lemma OneMethod(st: State, name: string, done: seq<MethodDecl>, m: MethodDecl)
    requires Valid(st) && name != "" && WellFormedMethods(done) && WellFormedMethod(m)
    requires st.repos[st.curIdx] == Decode(name, done)
    requires done == [] || done[|done| - 1].name != m.name
    ensures RunCaptures(st, MethodEvents(name, m)) == Ok(Put(st, Decode(name, done + [m]), |done|))
  {
    var c0, c1, c2 := Capture(ClassName, name), Capture(MethodName, m.name), Capture(ParamsList, m.params);
    var tail := if m.result.Some? then [Capture(ResultList, m.result.value)] else [];
    assert MethodEvents(name, m) == [c0] + ([c1] + ([c2] + tail));
    assert Step(st, c0) == Ok(st);
    RunCons(st, c0, [c1] + ([c2] + tail));
    NameEvent(st, name, done, m);
    RunCons(st, c1, [c2] + tail);
    ParamsEvent(st, name, done, m);
    var s2 := Put(st, Named(name, done, m), |done|);
    RunCons(s2, c2, tail);
    var s3 := Put(st, WithParams(name, done, m), |done|);
    if m.result.Some? {
      ResultEvent(st, name, done, m);
      RunCons(s3, tail[0], []);
      assert [tail[0]] + [] == tail;
    } else {
      DecodeSnoc(done, m);
      assert WithParams(name, done, m) == Decode(name, done + [m]);
    }
  }

  function MethodMatches(name: string, ms: seq<MethodDecl>): (r: seq<seq<Capture>>)
    ensures |r| == |ms|
  {
    seq(|ms|, i requires 0 <= i < |ms| => MethodEvents(name, ms[i]))
  }

  lemma WellFormedPrefix(ms: seq<MethodDecl>, k: nat)
    requires WellFormedMethods(ms) && k <= |ms|
    ensures WellFormedMethods(ms[..k])
  {
  }

  /** The matches of the method elements from the `k`-th on complete the current record. */
  lemma {:induction false} MethodsFrom(st: State, name: string, ms: seq<MethodDecl>, k: nat)
    requires Valid(st) && name != "" && WellFormedMethods(ms) && k <= |ms|
    requires WellFormedMethods(ms[..k]) && st.repos[st.curIdx] == Decode(name, ms[..k])
    requires k < |ms| ==> st.methodIdx == LastIdx(k)
    ensures RunMatches(st, MethodMatches(name, ms[k..]))
         == Ok(Put(st, Decode(name, ms), if k == |ms| then st.methodIdx else |ms| - 1))
    decreases |ms| - k
  {
    if k == |ms| {
      assert ms[..k] == ms;
      assert ms[k..] == [];
      assert st.repos[st.curIdx := Decode(name, ms)] == st.repos;
    } else {
      var s1 := Put(st, Decode(name, ms[..k + 1]), k);
      MethodsFromStep(st, name, ms, k);
      MethodsFrom(s1, name, ms, k + 1);
    }
  }

  /** One method element of `MethodsFrom`: it fills the record up to method `k + 1`. */
  lemma MethodsFromStep(st: State, name: string, ms: seq<MethodDecl>, k: nat)
    requires Valid(st) && name != "" && WellFormedMethods(ms) && k < |ms|
    requires WellFormedMethods(ms[..k]) && st.repos[st.curIdx] == Decode(name, ms[..k])
    requires st.methodIdx == LastIdx(k)
    ensures var s1 := Put(st, Decode(name, ms[..k + 1]), k);
      && Valid(s1) && WellFormedMethods(ms[..k + 1])
      && s1.repos[s1.curIdx] == Decode(name, ms[..k + 1])
      && (k + 1 < |ms| ==> s1.methodIdx == LastIdx(k + 1))
      && Put(s1, Decode(name, ms), |ms| - 1) == Put(st, Decode(name, ms), |ms| - 1)
    ensures RunMatches(st, MethodMatches(name, ms[k..]))
      == RunMatches(Put(st, Decode(name, ms[..k + 1]), k), MethodMatches(name, ms[k + 1..]))
  {
    WellFormedPrefix(ms, k + 1);
    PutFacts(st, Decode(name, ms[..k + 1]), k, Decode(name, ms), |ms| - 1);
    MethodsFromRun(st, name, ms, k);
  }

  lemma MethodsFromRun(st: State, name: string, ms: seq<MethodDecl>, k: nat)
    requires Valid(st) && name != "" && WellFormedMethods(ms) && k < |ms|
    requires WellFormedMethods(ms[..k]) && st.repos[st.curIdx] == Decode(name, ms[..k])
    ensures RunMatches(st, MethodMatches(name, ms[k..]))
      == RunMatches(Put(st, Decode(name, ms[..k + 1]), k), MethodMatches(name, ms[k + 1..]))
  {
    var m := ms[k];
    OneMethod(st, name, ms[..k], m);
    assert ms[..k] + [m] == ms[..k + 1];
    var rest := MethodMatches(name, ms[k..]);
    assert rest[0] == MethodEvents(name, m);
    assert rest[1..] == MethodMatches(name, ms[k + 1..]);
  }

  /** The state after the class-name event that starts a new declaration: the pre-created
      record is filled when it is still unnamed, otherwise a new record is opened. */
  function Opened(st: State, name: string): (o: State)
    requires Valid(st)
  {
    if st.repos[st.curIdx].ident == "" then Put(st, Decode(name, []), 0)
    else State(st.repos + [Decode(name, [])], st.curIdx + 1, 0)
  }

  /** A record that can be followed by declaration `name`. */
  predicate Ready(st: State, name: string)
    requires Valid(st)
  {
    var r := st.repos[st.curIdx];
    r.ident != name && (r.ident == "" ==> r == EmptyRepository())
  }

  /** The records the state keeps when the next declaration is opened. */
  function Kept(st: State): seq<Repository>
    requires Valid(st)
  {
    if st.repos[st.curIdx].ident == "" then st.repos[..st.curIdx] else st.repos
  }

  lemma ClassOpens(st: State, name: string)
    requires Valid(st) && name != "" && Ready(st, name)
    ensures Step(st, Capture(ClassName, name)) == Ok(Opened(st, name))
    ensures var o := Opened(st, name);
      Valid(o) && o.repos[o.curIdx] == Decode(name, []) && o.methodIdx == 0
      && o.repos == Kept(st) + [Decode(name, [])]
  {
    assert DecodeMethods([]) == [];
    var o := Opened(st, name);
    if st.repos[st.curIdx].ident == "" {
      PutFacts(st, Decode(name, []), 0, Decode(name, []), 0);
      assert o.repos == st.repos[..st.curIdx] + [Decode(name, [])];
    }
  }

  /** The repeated class-name event at the head of every later match of one declaration
      changes nothing, so those matches run as if it were absent. */
  lemma FirstEventOpens(st: State, name: string, ms: seq<seq<Capture>>)
    requires Valid(st) && name != "" && Ready(st, name)
    requires ms != [] && ms[0] != [] && ms[0][0] == Capture(ClassName, name)
    ensures RunMatches(st, ms) == RunMatches(Opened(st, name), ms)
  {
    var o := Opened(st, name);
    ClassOpens(st, name);
    assert Step(o, Capture(ClassName, name)) == Ok(o);
    assert ms[0] == [ms[0][0]] + ms[0][1..];
    RunCons(st, ms[0][0], ms[0][1..]);
    RunCons(o, ms[0][0], ms[0][1..]);
  }

  lemma OneInterface(st: State, d: InterfaceDecl)
    requires Valid(st) && d.name != "" && WellFormedMethods(d.methods) && Ready(st, d.name)
    ensures var o := Opened(st, d.name);
      RunMatches(st, InterfaceMatches(d)) == Ok(Put(o, Decode(d.name, d.methods), LastIdx(|d.methods|)))
    ensures var o := Opened(st, d.name);
      Put(o, Decode(d.name, d.methods), LastIdx(|d.methods|)).repos == Kept(st) + [Decode(d.name, d.methods)]
  {
    var o := Opened(st, d.name);
    ClassOpens(st, d.name);
    PutFacts(o, Decode(d.name, []), 0, Decode(d.name, d.methods), LastIdx(|d.methods|));
    if d.methods == [] {
      assert Decode(d.name, d.methods) == Decode(d.name, []);
      assert o.repos[o.curIdx := Decode(d.name, [])] == o.repos;
      RunCons(st, Capture(ClassName, d.name), []);
      assert [Capture(ClassName, d.name)] + [] == [Capture(ClassName, d.name)];
    } else {
      assert InterfaceMatches(d) == MethodMatches(d.name, d.methods);
      FirstEventOpens(st, d.name, InterfaceMatches(d));
      assert d.methods[..0] == [] && d.methods[0..] == d.methods;
      MethodsFrom(o, d.name, d.methods, 0);
    }
  }

  lemma {:induction false} RunMatchesAppend(st: State, a: seq<seq<Capture>>, b: seq<seq<Capture>>)
    requires Valid(st)
    ensures RunMatches(st, a + b)
         == match RunMatches(st, a) case Err(e) => Err(e) case Ok(s) => RunMatches(s, b)
    decreases |a|
  {
    if a == [] {
      assert a + b == b;
    } else {
      assert (a + b)[0] == a[0] && (a + b)[1..] == a[1..] + b;
      if RunCaptures(st, a[0]).Ok? {
        RunMatchesAppend(RunCaptures(st, a[0]).value, a[1..], b);
      }
    }
  }

  /** After the first declaration: the state, ready for the next one. */
  lemma FirstInterface(st: State, ds: seq<InterfaceDecl>) returns (s1: State)
    requires Valid(st) && WellFormedDecls(ds) && ds != [] && Ready(st, ds[0].name)
    ensures Valid(s1) && RunMatches(st, FileMatches(ds)) == RunMatches(s1, FileMatches(ds[1..]))
    ensures s1.repos == Kept(st) + [Decode(ds[0].name, ds[0].methods)]
    ensures Kept(s1) == s1.repos
    ensures ds[1..] != [] ==> Ready(s1, ds[1].name)
    ensures WellFormedDecls(ds[1..])
  {
    var d := ds[0];
    OneInterface(st, d);
    s1 := Put(Opened(st, d.name), Decode(d.name, d.methods), LastIdx(|d.methods|));
    RunMatchesAppend(st, InterfaceMatches(d), FileMatches(ds[1..]));
    ClassOpens(st, d.name);
    PutFacts(Opened(st, d.name), Decode(d.name, []), 0, Decode(d.name, d.methods), LastIdx(|d.methods|));
    assert WellFormedDecls(ds[1..]) by {
      forall i | 0 < i < |ds[1..]| ensures ds[1..][i - 1].name != ds[1..][i].name {
        assert ds[1..][i - 1] == ds[i] && ds[1..][i] == ds[i + 1];
      }
    }
  }

  lemma {:induction false} Interfaces(st: State, ds: seq<InterfaceDecl>)
    requires Valid(st) && WellFormedDecls(ds) && ds != [] && Ready(st, ds[0].name)
    ensures RunMatches(st, FileMatches(ds)).Ok?
    ensures RunMatches(st, FileMatches(ds)).value.repos == Kept(st) + DecodeAll(ds)
    decreases |ds|
  {
    var s1 := FirstInterface(st, ds);
    assert DecodeAll(ds) == [Decode(ds[0].name, ds[0].methods)] + DecodeAll(ds[1..]);
    if ds[1..] == [] {
      assert FileMatches(ds[1..]) == [];
    } else {
      Interfaces(s1, ds[1..]);
    }
  }

  /** Rebuilding: the events of a file of interface declarations give back exactly those
      contracts, in order, each with its methods in order, and with the file's package
      and imports. */
  lemma ScanDecls(pkg: string, ds: seq<InterfaceDecl>, imports: seq<Import>)
    requires WellFormedDecls(ds)
    ensures ScanSpec([[Capture(PkgName, pkg)]] + FileMatches(ds), imports)
         == Ok(Finish(DecodeAll(ds), pkg, imports))
  {
    var matches := [[Capture(PkgName, pkg)]] + FileMatches(ds);
    assert matches[0] == [Capture(PkgName, pkg)] && matches[1..] == FileMatches(ds);
    if ds == [] {
      assert FileMatches(ds) == [];
    } else {
      assert FileMatches(ds) == InterfaceMatches(ds[0]) + FileMatches(ds[1..]);
      Interfaces(Initial(), ds);
      var rm := RunMatches(Initial(), matches[1..]);
      assert rm.Ok? && rm.value.repos == DecodeAll(ds);
    }
  }

  lemma {:induction false} EmptyMatchesKeepState(st: State, ms: seq<seq<Capture>>)
    requires Valid(st) && forall i :: 0 <= i < |ms| ==> ms[i] == []
    ensures RunMatches(st, ms) == Ok(st)
    decreases |ms|
  {
    if ms != [] {
      assert ms[0] == [];
      EmptyMatchesKeepState(st, ms[1..]);
    }
  }

  /** Matches whose predicates all failed still leave the pre-created record, unnamed and
      without methods, in the result. */
  lemma OnlyFilteredMatches(c: Capture, ms: seq<seq<Capture>>, imports: seq<Import>)
    requires ms != [] && forall i :: 0 <= i < |ms| ==> ms[i] == []
    ensures ScanSpec([[c]] + ms, imports)
         == Ok([Repository(c.text, "", "", "", [], imports)])
  {
    var matches := [[c]] + ms;
    assert matches[0] == [c] && matches[1..] == ms;
    EmptyMatchesKeepState(Initial(), ms);
    assert Finish([EmptyRepository()], c.text, imports) == [Repository(c.text, "", "", "", [], imports)];
  }
}
