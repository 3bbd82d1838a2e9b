/** The two visitors that turn directives into response paths
    (`src/directives/principalField/getPrincipalFieldDirectivePath.ts`,
    `src/directives/optionalField/getOptionalFieldsDirectivePaths.ts`). */
module DirectivePaths {
  import opened Wrappers

  type Path = seq<string>

  /** The selections of a document, with the names of the directives each carries. */
  datatype Selection =
    | Field(alias: Option<string>, name: string, directives: seq<string>, selections: seq<Selection>)
    | Inline(directives: seq<string>, selections: seq<Selection>)
    | Spread(directives: seq<string>)

  /** An operation or a fragment definition. */
  datatype Definition = Definition(directives: seq<string>, selections: seq<Selection>)

  type Document = seq<Definition>

  function ResponseName(field: Selection): string
    requires field.Field?
  {
    if field.alias.Some? then field.alias.value else field.name
  }

  // ---------------------------------------------------------------- full paths

  /** `path`, once for each occurrence of the directive. */
  function Marks(directives: seq<string>, wanted: string, path: Path): seq<Path> {
    if directives == [] then []
    else (if directives[0] == wanted then [path] else []) + Marks(directives[1..], wanted, path)
  }

  /** The response-name chain to every occurrence of the directive, in document order. */
  function FullPaths(sels: seq<Selection>, wanted: string, prefix: Path): seq<Path> {
    if sels == [] then [] else FullPathsIn(sels[0], wanted, prefix) + FullPaths(sels[1..], wanted, prefix)
  }

  function FullPathsIn(sel: Selection, wanted: string, prefix: Path): seq<Path> {
    match sel
    case Field(_, _, directives, sub) =>
      var path := prefix + [ResponseName(sel)];
      Marks(directives, wanted, path) + FullPaths(sub, wanted, path)
    case Inline(directives, sub) => Marks(directives, wanted, prefix) + FullPaths(sub, wanted, prefix)
    case Spread(directives) => Marks(directives, wanted, prefix)
  }

  function DocumentPaths(doc: Document, wanted: string): seq<Path> {
    if doc == [] then []
    else
      Marks(doc[0].directives, wanted, []) + FullPaths(doc[0].selections, wanted, [])
      + DocumentPaths(doc[1..], wanted)
  }

  function First(paths: seq<Path>): Path {
    if paths == [] then [] else paths[0]
  }

  // ---------------------------------------------------------------- the principal field

  class PrincipalVisitor {
    var path: Path

    constructor ()
      ensures path == []
    {
      path := [];
    }

    /** Breaks off at the first occurrence, with the path to it; otherwise leaves the path alone. */
    method VisitDirectives(directives: seq<string>) returns (broke: bool)
      ensures broke <==> Marks(directives, "principalField", path) != []
      ensures broke ==> Marks(directives, "principalField", path)[0] == path
    {
      for i := 0 to |directives|
        invariant Marks(directives, "principalField", path) == Marks(directives[i..], "principalField", path)
      {
        if directives[i] == "principalField" {
          return true;
        }
      }
      broke := false;
    }

    method VisitAll(sels: seq<Selection>) returns (broke: bool)
      modifies this
      ensures var found := FullPaths(sels, "principalField", old(path));
              (broke <==> found != []) && path == if broke then found[0] else old(path)
      decreases sels
    {
      if sels == [] {
        return false;
      }
      broke := VisitOne(sels[0]);
      if !broke {
        broke := VisitAll(sels[1..]);
      }
    }

    method VisitOne(sel: Selection) returns (broke: bool)
      modifies this
      ensures var found := FullPathsIn(sel, "principalField", old(path));
              (broke <==> found != []) && path == if broke then found[0] else old(path)
      decreases sel
    {
      match sel
      case Field(_, _, directives, sub) =>
        path := path + [ResponseName(sel)];  // enter
        broke := VisitDirectives(directives);
        if !broke {
          broke := VisitAll(sub);
        }
        if !broke {
          path := path[..|path| - 1];  // leave
        }
      case Inline(directives, sub) =>
        broke := VisitDirectives(directives);
        if !broke {
          broke := VisitAll(sub);
        }
      case Spread(directives) =>
        broke := VisitDirectives(directives);
    }
  }

  /** `getPrincipalFieldDirectivePath`. */
  method GetPrincipalFieldDirectivePath(doc: Document) returns (path: Path)
    ensures path == First(DocumentPaths(doc, "principalField"))
  {
    var v := new PrincipalVisitor();
    for i := 0 to |doc|
      invariant v.path == []
      invariant DocumentPaths(doc, "principalField") == DocumentPaths(doc[i..], "principalField")
    {
      var broke := v.VisitDirectives(doc[i].directives);
      if !broke {
        broke := v.VisitAll(doc[i].selections);
      }
      if broke {
        return v.path;
      }
    }
    path := v.path;
  }

  // ---------------------------------------------------------------- the optional fields

  /** What the collector records for a node's directives, and the path it goes on with: the path is
      emptied at every occurrence. */
  function RecordMarks(directives: seq<string>, path: Path): (seq<Path>, Path) {
    if directives == [] then ([], path)
    else if directives[0] == "optionalField" then
      var (paths, rest) := RecordMarks(directives[1..], []);
      ([path] + paths, rest)
    else RecordMarks(directives[1..], path)
  }

  function Popped(path: Path): Path {
    if path == [] then [] else path[..|path| - 1]
  }

  function Record(sels: seq<Selection>, path: Path): (seq<Path>, Path) {
    if sels == [] then ([], path)
    else
      var (p, path1) := RecordIn(sels[0], path);
      var (q, path2) := Record(sels[1..], path1);
      (p + q, path2)
  }

  function RecordIn(sel: Selection, path: Path): (seq<Path>, Path) {
    match sel
    case Field(_, _, directives, sub) =>
      var (p, path1) := RecordMarks(directives, path + [ResponseName(sel)]);
      var (q, path2) := Record(sub, path1);
      (p + q, Popped(path2))
    case Inline(directives, sub) =>
      var (p, path1) := RecordMarks(directives, path);
      var (q, path2) := Record(sub, path1);
      (p + q, path2)
    case Spread(directives) => RecordMarks(directives, path)
  }

  function RecordDocument(doc: Document, path: Path): (seq<Path>, Path) {
    if doc == [] then ([], path)
    else
      var (p, path1) := RecordMarks(doc[0].directives, path);
      var (q, path2) := Record(doc[0].selections, path1);
      var (r, path3) := RecordDocument(doc[1..], path2);
      (p + q + r, path3)
  }

  class OptionalVisitor {
    var paths: seq<Path>
    var path: Path

    constructor ()
      ensures paths == [] && path == []
    {
      paths, path := [], [];
    }

    method VisitDirectives(directives: seq<string>)
      modifies this
      ensures paths == old(paths) + RecordMarks(directives, old(path)).0
      ensures path == RecordMarks(directives, old(path)).1
    {
      for i := 0 to |directives|
        invariant paths + RecordMarks(directives[i..], path).0 == old(paths) + RecordMarks(directives, old(path)).0
        invariant RecordMarks(directives[i..], path).1 == RecordMarks(directives, old(path)).1
      {
        ghost var rest := RecordMarks(directives[i + 1..], []).0;
        if directives[i] == "optionalField" {
          assert paths + ([path] + rest) == (paths + [path]) + rest;
          paths := paths + [path];
          path := [];
        }
      }
    }

    method VisitAll(sels: seq<Selection>)
      modifies this
      ensures paths == old(paths) + Record(sels, old(path)).0
      ensures path == Record(sels, old(path)).1
      decreases sels
    {
      if sels != [] {
        VisitOne(sels[0]);
        VisitAll(sels[1..]);
      }
    }

    method VisitOne(sel: Selection)
      modifies this
      ensures paths == old(paths) + RecordIn(sel, old(path)).0
      ensures path == RecordIn(sel, old(path)).1
      decreases sel
    {
      match sel
      case Field(_, _, directives, sub) =>
        path := path + [ResponseName(sel)];  // enter
        VisitDirectives(directives);
        VisitAll(sub);
        path := if path == [] then [] else path[..|path| - 1];  // leave: popping nothing is no error
      case Inline(directives, sub) =>
        VisitDirectives(directives);
        VisitAll(sub);
      case Spread(directives) =>
        VisitDirectives(directives);
    }
  
    method VisitDocument(doc: Document)
      modifies this
      ensures paths == old(paths) + RecordDocument(doc, old(path)).0
      ensures path == RecordDocument(doc, old(path)).1
    {
      hide RecordMarks, Record;
      if doc != [] {
        ghost var was := paths;
        ghost var (p, path1) := RecordMarks(doc[0].directives, path);
        ghost var (q, path2) := Record(doc[0].selections, path1);
        ghost var (r, path3) := RecordDocument(doc[1..], path2);
        VisitDirectives(doc[0].directives);
        VisitAll(doc[0].selections);
        VisitDocument(doc[1..]);
        assert was + p + q + r == was + (p + q + r);
      }
    }
  }

  /** `getOptionalFieldsDirectivePaths`. */
  method GetOptionalFieldsDirectivePaths(doc: Document) returns (paths: seq<Path>)
    ensures paths == RecordDocument(doc, []).0
    ensures |paths| == |DocumentPaths(doc, "optionalField")|
    ensures forall i | 0 <= i < |paths| :: IsSuffix(paths[i], DocumentPaths(doc, "optionalField")[i])
    ensures paths == DocumentPaths(doc, "optionalField") <==> OneEach(DocumentRoots(doc))
  {
    var v := new OptionalVisitor();
    v.VisitDocument(doc);
    paths := v.paths;
    RecordedAreSuffixes(doc);
    CollectorIsFaithfulExactly(doc);
  }

  // ---------------------------------------------------------------- recorded against full

  predicate IsSuffix(a: Path, b: Path) {
    |a| <= |b| && b[|b| - |a|..] == a
  }

  /** What visiting a part of the document does, started with the collector at `path` below the
      chain `prefix` of open fields, where `full` are the part's full paths: one recorded path for
      each full one, a suffix of it; the first is the full one if the collector had lost nothing;
      all later ones, and the first too if it had, lack some of the chain.  Once anything is
      recorded the collector is left empty. */
  ghost predicate Tracks(r: (seq<Path>, Path), full: seq<Path>, prefix: Path, path: Path) {
    && |r.0| == |full|
    && (forall i | 0 <= i < |full| :: IsSuffix(r.0[i], full[i]))
    && r.1 == (if full == [] then path else [])
    && (path == prefix && full != [] ==> r.0[0] == full[0])
    && (prefix != [] ==> forall i | 0 <= i < |full| :: i > 0 || path != prefix ==> r.0[i] != full[i])
  }

  lemma TracksInSequence(r: (seq<Path>, Path), f: seq<Path>, q: (seq<Path>, Path), g: seq<Path>,
                         prefix: Path, path: Path)
    requires Tracks(r, f, prefix, path) && Tracks(q, g, prefix, r.1)
    ensures Tracks((r.0 + q.0, q.1), f + g, prefix, path)
  {
    var full, recorded := f + g, r.0 + q.0;
    forall i | 0 <= i < |full|
      ensures IsSuffix(recorded[i], full[i])
      ensures prefix != [] && (i > 0 || path != prefix) ==> recorded[i] != full[i]
    {
      if i < |f| {
        assert recorded[i] == r.0[i] && full[i] == f[i];
      } else {
        assert recorded[i] == q.0[i - |f|] && full[i] == g[i - |f|];
      }
    }
  }

  lemma {:induction false} MarksTrack(directives: seq<string>, prefix: Path, path: Path)
    requires IsSuffix(path, prefix)
    ensures Tracks(RecordMarks(directives, path), Marks(directives, "optionalField", prefix), prefix, path)
  {
    if directives != [] {
      if directives[0] == "optionalField" {
        MarksTrack(directives[1..], prefix, []);
        var rest := RecordMarks(directives[1..], []);
        assert Tracks(([path], []), [prefix], prefix, path);
        TracksInSequence(([path], []), [prefix], rest, Marks(directives[1..], "optionalField", prefix), prefix, path);
      } else {
        MarksTrack(directives[1..], prefix, path);
        assert [] + Marks(directives[1..], "optionalField", prefix) == Marks(directives[1..], "optionalField", prefix);
      }
    }
  }

  lemma {:induction false} RecordTracks(sels: seq<Selection>, prefix: Path, path: Path)
    requires IsSuffix(path, prefix)
    ensures Tracks(Record(sels, path), FullPaths(sels, "optionalField", prefix), prefix, path)
    decreases sels, 0
  {
    if sels != [] {
      RecordInTracks(sels[0], prefix, path);
      var path1 := RecordIn(sels[0], path).1;
      RecordTracks(sels[1..], prefix, path1);
      TracksInSequence(RecordIn(sels[0], path), FullPathsIn(sels[0], "optionalField", prefix),
                       Record(sels[1..], path1), FullPaths(sels[1..], "optionalField", prefix), prefix, path);
    }
  }

  lemma {:induction false} RecordInTracks(sel: Selection, prefix: Path, path: Path)
    requires IsSuffix(path, prefix)
    ensures Tracks(RecordIn(sel, path), FullPathsIn(sel, "optionalField", prefix), prefix, path)
    decreases sel
  {
    match sel
    case Field(_, _, directives, sub) =>
      SameEnd(prefix, path, ResponseName(sel));
      NodeTracks(directives, sub, prefix + [ResponseName(sel)], path + [ResponseName(sel)]);
    case Inline(directives, sub) =>
      NodeTracks(directives, sub, prefix, path);
    case Spread(directives) =>
      MarksTrack(directives, prefix, path);
  }

  lemma SameEnd(prefix: Path, path: Path, name: string)
    requires IsSuffix(path, prefix)
    ensures IsSuffix(path + [name], prefix + [name])
    ensures Popped(path + [name]) == path
    ensures path + [name] == prefix + [name] <==> path == prefix
  {
    assert (path + [name])[..|path|] == path;
    assert (prefix + [name])[..|prefix|] == prefix;
    var k := |prefix| - |path|;
    assert (prefix + [name])[k..] == prefix[k..] + [name];
  }

  lemma MarksLeave(directives: seq<string>, prefix: Path, path: Path)
    requires IsSuffix(path, prefix)
    ensures IsSuffix(RecordMarks(directives, path).1, prefix)
  {
    MarksTrack(directives, prefix, path);
  }

  /** A node's directives, then its selections. */
  lemma {:induction false} NodeTracks(directives: seq<string>, sub: seq<Selection>, prefix: Path, path: Path)
    requires IsSuffix(path, prefix)
    ensures var (p, path1) := RecordMarks(directives, path);
            var (q, path2) := Record(sub, path1);
            Tracks((p + q, path2),
                   Marks(directives, "optionalField", prefix) + FullPaths(sub, "optionalField", prefix),
                   prefix, path)
    decreases sub, 1
  {
    hide Marks, RecordMarks, Record, FullPaths;
    MarksTrack(directives, prefix, path);
    MarksLeave(directives, prefix, path);
    var path1 := RecordMarks(directives, path).1;
    RecordTracks(sub, prefix, path1);
    TracksInSequence(RecordMarks(directives, path), Marks(directives, "optionalField", prefix),
                     Record(sub, path1), FullPaths(sub, "optionalField", prefix), prefix, path);
  }

  // ---------------------------------------------------------------- whole documents

  /** The top-level fields of a selection set, seen through inline fragments. */
  function RootFields(sels: seq<Selection>): (roots: seq<Selection>)
    ensures forall r | r in roots :: r.Field?
  {
    if sels == [] then []
    else
      var first := match sels[0]
        case Field(_, _, _, _) => [sels[0]]
        case Inline(_, sub) => RootFields(sub)
        case Spread(_) => [];
      first + RootFields(sels[1..])
  }

  function DocumentRoots(doc: Document): (roots: seq<Selection>)
    ensures forall r | r in roots :: r.Field?
  {
    if doc == [] then [] else RootFields(doc[0].selections) + DocumentRoots(doc[1..])
  }

  /** No top-level field has two occurrences of the directive in its subtree, itself included. */
  ghost predicate OneEach(roots: seq<Selection>) {
    forall r | r in roots :: |FullPathsIn(r, "optionalField", [])| <= 1
  }

  lemma SplitEqual<T>(a: seq<T>, b: seq<T>, c: seq<T>, d: seq<T>)
    requires |a| == |c|
    ensures a + b == c + d <==> a == c && b == d
  {
    if a + b == c + d {
      assert a == (a + b)[..|a|] == (c + d)[..|c|] == c;
      assert b == (a + b)[|a|..] == (c + d)[|c|..] == d;
    }
  }

  lemma OneEachConcat(a: seq<Selection>, b: seq<Selection>)
    ensures OneEach(a + b) <==> OneEach(a) && OneEach(b)
  {
    if OneEach(a + b) {
      forall r | r in a ensures |FullPathsIn(r, "optionalField", [])| <= 1 {
        assert r in a + b;
      }
      forall r | r in b ensures |FullPathsIn(r, "optionalField", [])| <= 1 {
        assert r in a + b;
      }
    }
  }

  /** Outside all fields nothing can be lost: marks there record the empty path, and leave it. */
  lemma {:induction false} TopMarks(directives: seq<string>)
    ensures RecordMarks(directives, []) == (Marks(directives, "optionalField", []), [])
  {
    if directives != [] {
      TopMarks(directives[1..]);
      var rest := Marks(directives[1..], "optionalField", []);
      assert [] + rest == rest;
    }
  }

  /** A top-level field is recorded in full exactly when it holds at most one occurrence. */
  lemma RootField(field: Selection)
    requires field.Field?
    ensures var r := RecordIn(field, []);
            && |r.0| == |FullPathsIn(field, "optionalField", [])|
            && r.1 == []
            && (r.0 == FullPathsIn(field, "optionalField", []) <==> |FullPathsIn(field, "optionalField", [])| <= 1)
  {
    hide Marks, RecordMarks, Record, FullPaths;
    var path := [] + [ResponseName(field)];
    NodeTracks(field.directives, field.selections, path, path);
    var full := FullPathsIn(field, "optionalField", []);
    if |full| >= 2 {
      assert RecordIn(field, []).0[1] != full[1];
    } else if |full| == 1 {
      assert RecordIn(field, []).0[0] == full[0];
    }
  }

  lemma {:induction false} TopLevel(sels: seq<Selection>)
    ensures var r := Record(sels, []);
            && |r.0| == |FullPaths(sels, "optionalField", [])|
            && r.1 == []
            && (r.0 == FullPaths(sels, "optionalField", []) <==> OneEach(RootFields(sels)))
  {
    if sels != [] {
      var first := match sels[0]
        case Field(_, _, _, _) => [sels[0]]
        case Inline(_, sub) => RootFields(sub)
        case Spread(_) => [];
      TopLevelOne(sels[0], first);
      TopLevel(sels[1..]);
      OneEachConcat(first, RootFields(sels[1..]));
      SplitEqual(RecordIn(sels[0], []).0, Record(sels[1..], []).0,
                 FullPathsIn(sels[0], "optionalField", []), FullPaths(sels[1..], "optionalField", []));
    }
  }

  lemma {:induction false} TopLevelOne(sel: Selection, roots: seq<Selection>)
    requires roots == match sel
      case Field(_, _, _, _) => [sel]
      case Inline(_, sub) => RootFields(sub)
      case Spread(_) => []
    ensures var r := RecordIn(sel, []);
            && |r.0| == |FullPathsIn(sel, "optionalField", [])|
            && r.1 == []
            && (r.0 == FullPathsIn(sel, "optionalField", []) <==> OneEach(roots))
  {
    match sel
    case Field(_, _, _, _) =>
      RootField(sel);
      assert sel in roots;
    case Inline(directives, sub) =>
      TopMarks(directives);
      TopLevel(sub);
      SplitEqual(Marks(directives, "optionalField", []), Record(sub, []).0,
                 Marks(directives, "optionalField", []), FullPaths(sub, "optionalField", []));
    case Spread(directives) =>
      TopMarks(directives);
  }

  /** The collector, meant to record the full path to every optional field, does so if and only if no
      top-level field holds two of them. */
  lemma {:induction false} CollectorIsFaithfulExactly(doc: Document)
    ensures RecordDocument(doc, []).0 == DocumentPaths(doc, "optionalField") <==> OneEach(DocumentRoots(doc))
    ensures |RecordDocument(doc, []).0| == |DocumentPaths(doc, "optionalField")|
  {
    if doc != [] {
      var marks := Marks(doc[0].directives, "optionalField", []);
      var r, f := Record(doc[0].selections, []).0, FullPaths(doc[0].selections, "optionalField", []);
      TopMarks(doc[0].directives);
      TopLevel(doc[0].selections);
      CollectorIsFaithfulExactly(doc[1..]);
      OneEachConcat(RootFields(doc[0].selections), DocumentRoots(doc[1..]));
      SplitEqual(marks + r, RecordDocument(doc[1..], []).0, marks + f, DocumentPaths(doc[1..], "optionalField"));
      SplitEqual(marks, r, marks, f);
    }
  }

  /** Whatever the document, each recorded path is a suffix of the full one, in the same order, and the
      first is the full one. */
  lemma {:induction false} RecordedAreSuffixes(doc: Document)
    ensures var r, full := RecordDocument(doc, []), DocumentPaths(doc, "optionalField");
            && |r.0| == |full|
            && r.1 == []
            && (forall i | 0 <= i < |full| :: IsSuffix(r.0[i], full[i]))
            && (full != [] ==> r.0[0] == full[0])
  {
    if doc != [] {
      NodeTracks(doc[0].directives, doc[0].selections, [], []);
      RecordedAreSuffixes(doc[1..]);
      var (p, path1) := RecordMarks(doc[0].directives, []);
      var (q, path2) := Record(doc[0].selections, path1);
      var f := Marks(doc[0].directives, "optionalField", []) + FullPaths(doc[0].selections, "optionalField", []);
      TracksInSequence((p + q, path2), f,
                       RecordDocument(doc[1..], []), DocumentPaths(doc[1..], "optionalField"), [], []);
    }
  }

  /** The directive stands on fields only, at most once on each. */
  ghost predicate OncePerField(sels: seq<Selection>) {
    forall i | 0 <= i < |sels| :: OnceOn(sels[i])
  }

  ghost predicate OnceOn(sel: Selection) {
    match sel
    case Field(_, _, directives, sub) =>
      |Marks(directives, "optionalField", [])| <= 1 && forall i | 0 <= i < |sub| :: OnceOn(sub[i])
    case Inline(directives, sub) =>
      Marks(directives, "optionalField", []) == [] && forall i | 0 <= i < |sub| :: OnceOn(sub[i])
    case Spread(directives) => Marks(directives, "optionalField", []) == []
  }

  lemma {:induction false} MarksRecorded(directives: seq<string>, path: Path)
    ensures Marks(directives, "optionalField", []) == [] ==> RecordMarks(directives, path) == ([], path)
    ensures |Marks(directives, "optionalField", [])| == 1 ==> RecordMarks(directives, path).0 == [path]
    ensures |RecordMarks(directives, path).0| == |Marks(directives, "optionalField", [])|
  {
    if directives != [] {
      MarksRecorded(directives[1..], if directives[0] == "optionalField" then [] else path);
    }
  }

  /** Then no recorded path is empty. */
  lemma {:induction false} RecordedAreNotEmpty(sels: seq<Selection>, path: Path)
    requires OncePerField(sels)
    ensures [] !in Record(sels, path).0
    decreases sels
  {
    if sels != [] {
      assert OnceOn(sels[0]);
      RecordedInAreNotEmpty(sels[0], path);
      RecordedAreNotEmpty(sels[1..], RecordIn(sels[0], path).1);
    }
  }

  lemma {:induction false} RecordedInAreNotEmpty(sel: Selection, path: Path)
    requires OnceOn(sel)
    ensures [] !in RecordIn(sel, path).0
    decreases sel
  {
    match sel
    case Field(_, _, directives, sub) =>
      var entered := path + [ResponseName(sel)];
      MarksRecorded(directives, entered);
      RecordedAreNotEmpty(sub, RecordMarks(directives, entered).1);
    case Inline(directives, sub) =>
      MarksRecorded(directives, path);
      RecordedAreNotEmpty(sub, path);
    case Spread(directives) =>
      MarksRecorded(directives, path);
  }

  function OptionalLeaf(name: string): Selection { Field(None, name, ["optionalField"], []) }

  lemma LeafPaths(name: string, path: Path)
    ensures RecordIn(OptionalLeaf(name), path) == ([path + [name]], [])
    ensures FullPathsIn(OptionalLeaf(name), "optionalField", path) == [path + [name]]
  {
    var p := path + [name];
    assert ["optionalField"][1..] == [];
    assert RecordMarks(["optionalField"], p) == ([p] + [], []);
    assert Marks(["optionalField"], "optionalField", p) == [p] + [];
    assert [p] + [] == [p];
  }

  /** Two optional fields below one top-level field: the second path comes out without its root. */
  lemma SecondOptionalFieldLosesItsRoot(root: string, a: string, b: string)
    ensures var doc := [Definition([], [Field(None, root, [], [OptionalLeaf(a), OptionalLeaf(b)])])];
            && RecordDocument(doc, []).0 == [[root, a], [b]]
            && DocumentPaths(doc, "optionalField") == [[root, a], [root, b]]
  {
    var x, y := OptionalLeaf(a), OptionalLeaf(b);
    var top := Field(None, root, [], [x, y]);
    var doc := [Definition([], [top])];
    assert [x, y][1..] == [y] && [y][1..] == [] && [top][1..] == [] && doc[1..] == [];
    LeafPaths(a, [root]);
    LeafPaths(b, []);
    LeafPaths(b, [root]);
    assert [root] + [a] == [root, a] && [root] + [b] == [root, b] && [] + [b] == [b] && [] + [root] == [root];
    assert Record([y], []) == ([[b]] + [], []);
    assert [[b]] + [] == [[b]];
    assert RecordIn(x, [root]) == ([[root, a]], []);
    assert Record([x, y], [root]) == ([[root, a]] + [[b]], []);
    assert [[root, a]] + [[b]] == [[root, a], [b]] == [] + [[root, a], [b]];
    assert RecordMarks([], [root]) == ([], [root]);
    assert RecordIn(top, []) == ([] + [[root, a], [b]], []);
    assert Record([top], []) == ([[root, a], [b]] + [], []);
    assert FullPaths([y], "optionalField", [root]) == [[root, b]] + [];
    assert FullPaths([x, y], "optionalField", [root]) == [[root, a]] + [[root, b]];
    assert FullPathsIn(top, "optionalField", []) == [] + [[root, a], [root, b]];
    assert FullPaths([top], "optionalField", []) == [[root, a], [root, b]] + [];
    assert DocumentPaths(doc, "optionalField") == [] + [[root, a], [root, b]] + [];
  }
}
