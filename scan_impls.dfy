/** The reducer that reads an implementation file: its package name, the implementation types
    it declares and, per receiver type, the methods declared on it. The query's matches are
    read as one stream of captures after predicate filtering (the receiver cursor carries over
    from one match to the next, so the match boundaries do not matter). */
module ImplScan {
  import opened GoStrings
  import opened Types

  /** The capture indices of the query, in the order the query declares them. */
  datatype ImplKind = PkgCapture | NameCapture | RecCapture | FieldCapture

  datatype ImplCapture = ImplCapture(kind: ImplKind, text: string)

  /** What one implementation file declares. Go returns the declared names in map order;
      they are only ever used as keys, so they are a set here. */
  datatype ImplFile = ImplFile(pkg: string, decls: set<string>, methods: map<string, seq<string>>)

  /** The reducer's state: the file so far and the current receiver (empty before the first). */
  datatype ScanState = ScanState(file: ImplFile, curRec: string)

  const ReceiverPanic := "receiver not found"

  /** The methods recorded under a key; a missing key reads as the empty list. */
  function Get(m: map<string, seq<string>>, k: string): (r: seq<string>)
    ensures k !in m ==> r == []
  {
    if k in m then m[k] else []
  }

  /** A receiver type with one leading `*` removed, so `*fooImpl` and `fooImpl` are one key. */
  function Strip(rec: string): (r: string)
    requires rec != ""
    ensures rec[0] == '*' ==> "*" + r == rec
    ensures rec[0] != '*' ==> r == rec
  {
    if rec[0] == '*' then rec[1..] else rec
  }

  /** One capture. */
  function ImplStep(st: ScanState, c: ImplCapture): Result<ScanState> {
    match c.kind
    case PkgCapture => Ok(st.(file := st.file.(pkg := c.text)))
    case NameCapture => Ok(st.(file := st.file.(decls := st.file.decls + {c.text})))
    case RecCapture => if c.text == "" then Ok(st) else Ok(st.(curRec := Strip(c.text)))
    case FieldCapture =>
      if st.curRec == "" then Err(Panic(ReceiverPanic))
      else
        var ms := Get(st.file.methods, st.curRec);
        if c.text in ms then Ok(st)
        else Ok(st.(file := st.file.(methods := st.file.methods[st.curRec := ms + [c.text]])))
  }

  function Start(): ScanState {
    ScanState(ImplFile("", {}, map[]), "")
  }

  /** The captures in order; the first panic ends the scan. */
  function ImplRun(cs: seq<ImplCapture>): Result<ScanState>
    decreases |cs|
  {
    if cs == [] then Ok(Start())
    else match ImplRun(cs[..|cs| - 1])
      case Err(e) => Err(e)
      case Ok(st) => ImplStep(st, cs[|cs| - 1])
  }

  /** What `parseRepositoryImplFile` returns for the captures of one file. */
  function ScanImplSpec(cs: seq<ImplCapture>): Result<ImplFile> {
    match ImplRun(cs)
    case Err(e) => Err(e)
    case Ok(st) => Ok(st.file)
  }

  // ---------------------------------------------------------------------------------------
  // Reference definitions of what the scan collects

  /** The receiver in force after the captures: the last non-empty receiver capture, stripped. */
  function LastReceiver(cs: seq<ImplCapture>): string
    decreases |cs|
  {
    if cs == [] then ""
    else if cs[|cs| - 1].kind == RecCapture && cs[|cs| - 1].text != "" then Strip(cs[|cs| - 1].text)
    else LastReceiver(cs[..|cs| - 1])
  }

  /** The last package capture, or "" when there is none. */
  function LastPkg(cs: seq<ImplCapture>): string
    decreases |cs|
  {
    if cs == [] then ""
    else if cs[|cs| - 1].kind == PkgCapture then cs[|cs| - 1].text
    else LastPkg(cs[..|cs| - 1])
  }

  /** A method capture at `j` under the receiver in force there. */
  predicate FieldAt(cs: seq<ImplCapture>, j: int, rec: string, m: string) {
    0 <= j < |cs| && cs[j] == ImplCapture(FieldCapture, m) && LastReceiver(cs[..j]) == rec
  }

  /** Method `m` is captured somewhere under receiver `rec`. */
  predicate Collected(cs: seq<ImplCapture>, rec: string, m: string) {
    exists j :: 0 <= j < |cs| && FieldAt(cs, j, rec, m)
  }

  /** Some method capture comes before any non-empty receiver. */
  predicate Orphan(cs: seq<ImplCapture>) {
    exists j :: 0 <= j < |cs| && cs[j].kind == FieldCapture && LastReceiver(cs[..j]) == ""
  }

  predicate Distinct(xs: seq<string>) {
    forall a, b :: 0 <= a < b < |xs| ==> xs[a] != xs[b]
  }

  // ---------------------------------------------------------------------------------------
  // The scan agrees with the reference definitions

  lemma PrefixOfSnoc(cs: seq<ImplCapture>, j: nat)
    requires j < |cs|
    ensures cs[..j] == cs[..|cs| - 1][..j]
  {
  }

  lemma OrphanSnoc(cs: seq<ImplCapture>)
    requires cs != []
    ensures var p, c := cs[..|cs| - 1], cs[|cs| - 1];
      Orphan(cs) <==> Orphan(p) || (c.kind == FieldCapture && LastReceiver(p) == "")
  {
    var p, c := cs[..|cs| - 1], cs[|cs| - 1];
    if Orphan(cs) {
      var j :| 0 <= j < |cs| && cs[j].kind == FieldCapture && LastReceiver(cs[..j]) == "";
      if j < |p| {
        PrefixOfSnoc(cs, j);
        assert p[j] == cs[j] && p[..j] == cs[..j];
      }
    }
    if Orphan(p) {
      var j :| 0 <= j < |p| && p[j].kind == FieldCapture && LastReceiver(p[..j]) == "";
      PrefixOfSnoc(cs, j);
      assert cs[j] == p[j];
    }
  }

  lemma FieldAtSnoc(cs: seq<ImplCapture>, rec: string, m: string)
    requires cs != []
    ensures var p, c := cs[..|cs| - 1], cs[|cs| - 1];
      Collected(cs, rec, m) <==> Collected(p, rec, m) || (c == ImplCapture(FieldCapture, m) && LastReceiver(p) == rec)
  {
    var p, c := cs[..|cs| - 1], cs[|cs| - 1];
    if j :| FieldAt(cs, j, rec, m) {
      if j < |p| {
        PrefixOfSnoc(cs, j);
        assert FieldAt(p, j, rec, m);
      }
    }
    if j :| FieldAt(p, j, rec, m) {
      PrefixOfSnoc(cs, j);
      assert FieldAt(cs, j, rec, m);
    }
    if c == ImplCapture(FieldCapture, m) && LastReceiver(p) == rec {
      assert FieldAt(cs, |p|, rec, m);
    }
  }

  /** The scan panics exactly on a method capture with no receiver in force. */
  lemma {:induction false} ScanPanics(cs: seq<ImplCapture>)
    ensures ImplRun(cs).Err? <==> Orphan(cs)
    ensures ImplRun(cs).Err? ==> ImplRun(cs).error == Panic(ReceiverPanic)
    ensures ImplRun(cs).Ok? ==> ImplRun(cs).value.curRec == LastReceiver(cs)
    decreases |cs|
  {
    if cs != [] {
      var p := cs[..|cs| - 1];
      ScanPanics(p);
      OrphanSnoc(cs);
    }
  }

  /** The package name is the last package capture's, and the declared names are those of
      the name captures. */
  lemma {:induction false} ScanNames(cs: seq<ImplCapture>)
    requires ImplRun(cs).Ok?
    ensures ImplRun(cs).value.file.pkg == LastPkg(cs)
    ensures forall d :: d in ImplRun(cs).value.file.decls
                     <==> exists j :: 0 <= j < |cs| && cs[j] == ImplCapture(NameCapture, d)
    decreases |cs|
  {
    if cs != [] {
      var p, c := cs[..|cs| - 1], cs[|cs| - 1];
      ScanNames(p);
      forall d
        ensures (exists j :: 0 <= j < |cs| && cs[j] == ImplCapture(NameCapture, d))
            <==> (exists j :: 0 <= j < |p| && p[j] == ImplCapture(NameCapture, d)) || c == ImplCapture(NameCapture, d)
      {
        if j :| 0 <= j < |cs| && cs[j] == ImplCapture(NameCapture, d) {
          if j < |p| { assert p[j] == cs[j]; }
        }
        if j :| 0 <= j < |p| && p[j] == ImplCapture(NameCapture, d) {
          assert cs[j] == p[j];
        }
      }
    }
  }

  /** Every recorded receiver has a non-empty list without repetitions. */
  predicate WellKept(ms: map<string, seq<string>>) {
    forall rec :: rec in ms ==> ms[rec] != [] && Distinct(ms[rec])
  }

  /** One capture adds at most its own method, under the receiver in force. */
  lemma StepMethods(st: ScanState, c: ImplCapture)
    requires ImplStep(st, c).Ok?
    ensures var ms, ms' := st.file.methods, ImplStep(st, c).value.file.methods;
      forall rec, m :: m in Get(ms', rec) <==> m in Get(ms, rec) || (c == ImplCapture(FieldCapture, m) && st.curRec == rec)
    ensures WellKept(st.file.methods) ==> WellKept(ImplStep(st, c).value.file.methods)
  {
    if c.kind == FieldCapture {
      var ms := Get(st.file.methods, st.curRec);
      if c.text !in ms && WellKept(st.file.methods) {
        var ext := ms + [c.text];
        assert forall a :: 0 <= a < |ms| ==> ext[a] == ms[a];
      }
    }
  }

  /** The method lists are the methods captured under each receiver. */
  lemma {:induction false} ScanMethods(cs: seq<ImplCapture>)
    requires ImplRun(cs).Ok?
    ensures var ms := ImplRun(cs).value.file.methods;
      forall rec, m :: m in Get(ms, rec) <==> Collected(cs, rec, m)
    decreases |cs|
  {
    if cs != [] {
      var p, c := cs[..|cs| - 1], cs[|cs| - 1];
      ScanMethods(p);
      ScanPanics(p);
      StepMethods(ImplRun(p).value, c);
      forall rec, m ensures Collected(cs, rec, m)
        <==> Collected(p, rec, m) || (c == ImplCapture(FieldCapture, m) && LastReceiver(p) == rec)
      {
        FieldAtSnoc(cs, rec, m);
      }
    }
  }

  /** Each method is listed once per receiver, and no receiver is recorded without one. */
  lemma {:induction false} ScanMethodsDistinct(cs: seq<ImplCapture>)
    requires ImplRun(cs).Ok?
    ensures WellKept(ImplRun(cs).value.file.methods)
    decreases |cs|
  {
    if cs != [] {
      var p, c := cs[..|cs| - 1], cs[|cs| - 1];
      ScanMethodsDistinct(p);
      StepMethods(ImplRun(p).value, c);
    }
  }

  /** A pointer receiver and a value receiver of one type put their methods under one key. */
  lemma PointerReceiverShared(p: seq<ImplCapture>, t: string)
    requires t != "" && t[0] != '*'
    ensures LastReceiver(p + [ImplCapture(RecCapture, "*" + t)]) == t
    ensures LastReceiver(p + [ImplCapture(RecCapture, t)]) == t
  {
    assert ("*" + t)[1..] == t;
  }

  /** After a panic the scan stays failed. */
  lemma {:induction false} PanicSticks(cs: seq<ImplCapture>, i: nat)
    requires i <= |cs| && ImplRun(cs[..i]).Err?
    ensures ImplRun(cs) == ImplRun(cs[..i])
    decreases |cs| - i
  {
    if i < |cs| {
      assert cs[..i + 1][..i] == cs[..i];
      PanicSticks(cs, i + 1);
    } else {
      assert cs[..i] == cs;
    }
  }

  // ---------------------------------------------------------------------------------------
  // The loop of parseRepositoryImplFile

  /** `parseRepositoryImplFile` after the tree-sitter query. */
  method ScanImplFile(cs: seq<ImplCapture>) returns (r: Result<ImplFile>)
    ensures r == ScanImplSpec(cs)
  {
    var pkg := "";
    var decls: set<string> := {};
    var methods: map<string, seq<string>> := map[];
    var curRec := "";
    for i := 0 to |cs|
      invariant ImplRun(cs[..i]) == Ok(ScanState(ImplFile(pkg, decls, methods), curRec))
    {
      var c := cs[i];
      assert cs[..i + 1][..i] == cs[..i];
      match c.kind {
        case PkgCapture =>
          pkg := c.text;
        case NameCapture =>
          decls := decls + {c.text};
        case RecCapture =>
          var rec := c.text;
          if rec == "" {
            continue;
          } else if rec[0] == '*' {
            rec := rec[1..];
          }
          curRec := rec;
        case FieldCapture =>
          if curRec == "" {
            PanicSticks(cs, i + 1);
            return Err(Panic(ReceiverPanic));
          }
          var known := Get(methods, curRec);
          var found := Contains(known, c.text);
          if !found {
            methods := methods[curRec := known + [c.text]];
          }
      }
    }
    assert cs[..|cs|] == cs;
    r := Ok(ImplFile(pkg, decls, methods));
  }
}
