/** Go's `path` package (slash-separated paths), as the generator uses it: Clean, Join, Dir, Base.
    Clean is the lexical algorithm of that package, stated on the list of path elements. */
module GoPath {
  import opened GoStrings

  /** An element that Clean keeps as it is: not empty, not `.` or `..`, no slash. */
  predicate PlainElement(e: string) {
    e != "" && e != "." && e != ".." && '/' !in e
  }

  /** A relative path made only of plain elements, such as `internal/movies`. */
  predicate PlainPath(p: string) {
    var es := Split(p, '/');
    forall i :: 0 <= i < |es| ==> PlainElement(es[i])
  }

  /** One element of Clean's processing: skip empty elements and `.`, let `..` remove the
      last kept element (or stay, at the front of a relative path), keep everything else. */
  function Push(kept: seq<string>, e: string, rooted: bool): seq<string> {
    if e == "" || e == "." then kept
    else if e == ".." then
      if |kept| > 0 && kept[|kept| - 1] != ".." then kept[..|kept| - 1]
      else if rooted then kept
      else kept + [".."]
    else kept + [e]
  }

  function Reduce(es: seq<string>, rooted: bool): seq<string>
    decreases |es|
  {
    if es == [] then [] else Push(Reduce(es[..|es| - 1], rooted), es[|es| - 1], rooted)
  }

  /** `path.Clean`. */
  function Clean(p: string): (r: string)
    ensures r != ""
  {
    if p == "" then "."
    else
      var rooted := p[0] == '/';
      var body := JoinWith(Reduce(Split(p, '/'), rooted), "/");
      if rooted then "/" + body else if body == "" then "." else body
  }

  function DropLeadingEmpty(es: seq<string>): (r: seq<string>)
    ensures r == [] || r[0] != ""
    ensures r == [] <==> forall i :: 0 <= i < |es| ==> es[i] == ""
  {
    if es == [] then [] else if es[0] == "" then DropLeadingEmpty(es[1..]) else es
  }

  /** `path.Join(elems...)`: empty when every element is empty, else the cleaned join of
      the elements from the first non-empty one on. */
  function JoinAll(es: seq<string>): string {
    var rest := DropLeadingEmpty(es);
    if rest == [] then "" else Clean(JoinWith(rest, "/"))
  }

  function Join(a: string, b: string): string {
    JoinAll([a, b])
  }

  function LastSlash(p: string): (i: int)
    ensures -1 <= i < |p|
    ensures i >= 0 ==> p[i] == '/'
    ensures forall k :: i < k < |p| ==> p[k] != '/'
  {
    if p == [] then -1
    else if p[|p| - 1] == '/' then |p| - 1
    else LastSlash(p[..|p| - 1])
  }

  function TrimTrailingSlashes(p: string): (r: string)
    ensures r == [] || r[|r| - 1] != '/'
  {
    if p != [] && p[|p| - 1] == '/' then TrimTrailingSlashes(p[..|p| - 1]) else p
  }

  /** `path.Base`. */
  function Base(p: string): string {
    if p == "" then "."
    else
      var q := TrimTrailingSlashes(p);
      var last := q[LastSlash(q) + 1..];
      if last == "" then "/" else last
  }

  /** `path.Dir`: everything up to the last slash, cleaned. */
  function Dir(p: string): string {
    Clean(p[..LastSlash(p) + 1])
  }

  lemma {:induction false} ReducePlain(es: seq<string>, rooted: bool)
    requires forall i :: 0 <= i < |es| ==> PlainElement(es[i])
    ensures Reduce(es, rooted) == es
    decreases |es|
  {
    if es != [] {
      ReducePlain(es[..|es| - 1], rooted);
      assert es[..|es| - 1] + [es[|es| - 1]] == es;
    }
  }

  /** A plain path is its own cleaning. */
  lemma CleanPlain(p: string)
    requires PlainPath(p)
    ensures Clean(p) == p
  {
    var es := Split(p, '/');
    JoinSplit(p, '/');
    ReducePlain(es, false);
    assert es[0] != "";
  }

  /** Joining a plain element onto a plain path only inserts the slash. */
  lemma JoinPlain(p: string, e: string)
    requires PlainPath(p) && PlainElement(e)
    ensures Join(p, e) == p + "/" + e
    ensures PlainPath(p + "/" + e)
  {
    var es := Split(p, '/');
    assert es[0] != "";
    SplitAppend(p, '/', e);
    SplitWithout(e, '/');
    var es' := Split(p + "/" + e, '/');
    assert es' == es + [e];
    assert forall i :: 0 <= i < |es'| ==> PlainElement(es'[i]) by {
      forall i | 0 <= i < |es'| ensures PlainElement(es'[i]) {
        if i < |es| { assert es'[i] == es[i]; }
      }
    }
    assert DropLeadingEmpty([p, e]) == [p, e];
    assert JoinWith([p, e], "/") == p + "/" + e;
    CleanPlain(p + "/" + e);
  }

  /** Splitting `d/f` at its last slash, for `f` without slashes. */
  lemma LastSlashOfJoin(d: string, f: string)
    requires '/' !in f
    ensures LastSlash(d + "/" + f) == |d|
    decreases |f|
  {
    var p := d + "/" + f;
    if f == [] {
      assert p[|p| - 1] == '/';
    } else {
      assert p[|p| - 1] == f[|f| - 1];
      assert p[..|p| - 1] == d + "/" + f[..|f| - 1];
      LastSlashOfJoin(d, f[..|f| - 1]);
    }
  }

  /** The directory and base name of a file `dir/name` under a plain directory. */
  lemma DirBaseOfPlain(d: string, f: string)
    requires PlainPath(d) && PlainElement(f)
    ensures Dir(d + "/" + f) == d && Base(d + "/" + f) == f
  {
    var p := d + "/" + f;
    LastSlashOfJoin(d, f);
    assert p[..|d| + 1] == d + "/";
    var es := Split(d, '/');
    assert d + "/" == d + ['/'] + "";
    SplitAppend(d, '/', "");
    assert Split("", '/') == [""];
    assert Split(d + "/", '/') == es + [""];
    JoinSplit(d, '/');
    ReducePlain(es, false);
    assert es[0] != "";
    assert (d + "/")[0] == d[0];
    assert Reduce(es + [""], false) == es by {
      assert (es + [""])[..|es + [""]| - 1] == es;
    }
    assert TrimTrailingSlashes(p) == p;
    assert p[|d| + 1..] == f;
  }

  /** A file name without a directory lives in `.`. */
  lemma DirBaseOfName(f: string)
    requires PlainElement(f)
    ensures Dir(f) == "." && Base(f) == f
  {
    assert LastSlash(f) == -1;
    assert f[..0] == "";
    assert TrimTrailingSlashes(f) == f;
    assert f[0..] == f;
  }
}
