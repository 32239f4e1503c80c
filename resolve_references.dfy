/** The reference resolver of the OpenAPI parser. A document is an arena of
    object nodes (arrays are nodes whose keys are the indices), so that two
    places can hold the same node, as the source's object references do.
    `dereference` rewrites nodes in place: it replaces each `$ref` by the
    referenced content, marks circular references, and recurses into every
    child object exactly once. */
module ResolveReferences {
  import opened Util
  import opened CircularReferenceTracker
  import JsonValue

  type NodeId = nat

  /** A property value: an object node or a scalar. */
  datatype Val = Node(id: NodeId) | Text(s: string) | Number(n: int) | Boolean(b: bool) | Null

  type Fields = map<string, Val>
  type Arena = map<NodeId, Fields>

  datatype ErrorCode = InvalidReference | ExternalReferenceNotFound | NoContent
  datatype Error = Error(code: ErrorCode, message: string)

  /** `circularReferenceMode`; `'mark'` is the default. */
  datatype Mode = Mark | Break

  /** One file of the filesystem: its name and its parsed specification. */
  datatype FileEntry = FileEntry(filename: string, specification: Val)

  /** `ERRORS[code].replace('%s', argument)`; the templates are not part of
      this model. */
  type Messages = (ErrorCode, string) -> string

  /** `getSegmentsFromPath(path)` for the fragment of a reference (None when
      the reference has no '#'); the pointer decoding is not part of this model. */
  type Segmenter = Option<string> -> seq<string>

  // ---------------------------------------------------------------------
  // Values and the arena.

  /** `String(v)`, as a non-string `$ref` is printed into a path or message. */
  function ValText(v: Val): string {
    match v
    case Node(_) => "[object Object]"
    case Text(s) => s
    case Number(n) => JsonValue.IntText(n)
    case Boolean(b) => if b then "true" else "false"
    case Null => "null"
  }

  predicate ValOk(v: Val, nodes: Arena) {
    v.Node? ==> v.id in nodes
  }

  /** A value the arena may hold: a node of the arena, a string of the
      given universe, or another scalar. */
  predicate Allowed(v: Val, ids: set<NodeId>, universe: set<string>) {
    && (v.Node? ==> v.id in ids)
    && (v.Text? ==> v.s in universe)
  }

  /** No value refers to a node outside the arena, and every string value is
      drawn from the universe. */
  ghost predicate WellFormed(nodes: Arena, universe: set<string>) {
    forall id, k :: id in nodes && k in nodes[id] ==> Allowed(nodes[id][k], nodes.Keys, universe)
  }

  /** The strings an arena holds. */
  ghost function ArenaStrings(nodes: Arena): set<string> {
    set id, k | id in nodes && k in nodes[id] && nodes[id][k].Text? :: nodes[id][k].s
  }

  /** No value refers to a node outside the arena. */
  ghost predicate Closed(nodes: Arena) {
    forall id, k :: id in nodes && k in nodes[id] && nodes[id][k].Node? ==> nodes[id][k].id in nodes
  }

  lemma WellFormedOwnStrings(nodes: Arena)
    requires Closed(nodes)
    ensures WellFormed(nodes, ArenaStrings(nodes))
  {
  }

  /** The copy loop of `dereference`: each key of the resolved object is
      copied only where the node's own value is undefined. */
  function Fill(own: Fields, resolved: Fields): (r: Fields)
    ensures r.Keys == own.Keys + resolved.Keys
    ensures forall k :: k in own ==> r[k] == own[k]
    ensures forall k :: k in resolved && k !in own ==> r[k] == resolved[k]
  {
    map k | k in own.Keys + resolved.Keys :: if k in own then own[k] else resolved[k]
  }

  /** The node before the copy: a circular step sets `isCircular` and keeps
      `$ref`, any other step deletes `$ref`. */
  function Marked(own: Fields, circular: bool): (r: Fields)
    ensures circular ==> r.Keys == own.Keys + {"isCircular"} && r["isCircular"] == Boolean(true)
    ensures circular ==> forall k :: k in own && k != "isCircular" ==> r[k] == own[k]
    ensures !circular ==> r.Keys == own.Keys - {"$ref"} && forall k :: k in r ==> r[k] == own[k]
  {
    if circular then own["isCircular" := Boolean(true)] else own - {"$ref"}
  }

  // ---------------------------------------------------------------------
  // Splitting a reference: `uri.split('#', 2)`.

  /** Index of the first '#', or the length when there is none. */
  function HashIndex(s: string): (i: nat)
    ensures i <= |s|
    ensures i < |s| ==> s[i] == '#'
    ensures forall j :: 0 <= j < i ==> s[j] != '#'
  {
    if s == [] then 0
    else if s[0] == '#' then 0
    else 1 + HashIndex(s[1..])
  }

  /** `[prefix, path] = uri.split('#', 2)`: the text before the first '#',
      and the text between it and the next '#' (None without a '#'). */
  function SplitRef(uri: string): (r: (string, Option<string>))
    ensures '#' !in r.0
    ensures r.1.None? <==> '#' !in uri
    ensures r.1.None? ==> r.0 == uri
    ensures r.1.Some? ==> ('#' !in r.1.value
                           && |r.0| + 1 + |r.1.value| <= |uri|
                           && uri[..|r.0| + 1 + |r.1.value|] == r.0 + "#" + r.1.value)
    // the path runs to the end of the uri or to its second '#'
    ensures r.1.Some? ==> (|r.0| + 1 + |r.1.value| == |uri| || uri[|r.0| + 1 + |r.1.value|] == '#')
  {
    var i := HashIndex(uri);
    if i == |uri| then
      assert forall j :: 0 <= j < |uri| ==> uri[j] != '#';
      (uri, None)
    else
      var rest := uri[i + 1..];
      var j := HashIndex(rest);
      assert uri[..i + 1 + j] == uri[..i] + "#" + rest[..j];
      assert j < |rest| ==> uri[i + 1 + j] == rest[j];
      (uri[..i], Some(rest[..j]))
  }

  /** Joining the parts back gives the reference whenever it has at most one '#'. */
  lemma SplitRefRoundTrip(uri: string)
    requires forall i, j :: 0 <= i < j < |uri| ==> !(uri[i] == '#' && uri[j] == '#')
    ensures var (prefix, path) := SplitRef(uri);
            uri == prefix + (if path.Some? then "#" + path.value else "")
  {
    var (prefix, path) := SplitRef(uri);
    if path.Some? {
      assert uri == uri[..|prefix| + 1 + |path.value|];
    }
  }

  /** `#` followed by a hash-free path is a local reference to that path. */
  lemma SplitLocal(path: string)
    requires '#' !in path
    ensures SplitRef("#" + path) == ("", Some(path))
  {
    var uri := "#" + path;
    assert HashIndex(uri) == 0;
    var rest := uri[1..];
    assert rest == path;
    assert HashIndex(rest) == |path|;
    assert rest[..|path|] == path;
  }

  /** A reference names another file when its prefix is non-empty and is
      not the current file's name. */
  predicate IsExternal(uri: string, filename: string) {
    SplitRef(uri).0 != "" && SplitRef(uri).0 != filename
  }

  /** `filesystem.find(entry => entry.filename === name)`. */
  function FindFile(files: seq<FileEntry>, name: string): (r: Option<FileEntry>)
    ensures r.Some? ==> r.value in files && r.value.filename == name
    ensures r.None? ==> forall f :: f in files ==> f.filename != name
    ensures r.Some? ==> (exists i :: 0 <= i < |files| && files[i] == r.value
                                    && forall j :: 0 <= j < i ==> files[j].filename != name)
  {
    if files == [] then None
    else if files[0].filename == name then Some(files[0])
    else
      var r := FindFile(files[1..], name);
      if r.Some? then
        var i :| 0 <= i < |files[1..]| && files[1..][i] == r.value && forall j :: 0 <= j < i ==> files[1..][j].filename != name;
        assert files[i + 1] == r.value;
        assert forall j :: 1 <= j < i + 1 ==> files[j] == files[1..][j - 1];
        r
      else
        assert forall f :: f in files[1..] ==> f.filename != name;
        r
  }

  // ---------------------------------------------------------------------
  // The pointer walk: `segments.reduce((acc, key) => acc[key], spec)`.

  /** The walk either reaches a value (None is `undefined`) or reads a
      property of `undefined`/`null`, which throws. */
  datatype Walked = Reached(v: Option<Val>) | Broken

  /** `v[key]`: only object nodes carry properties here. */
  function Prop(nodes: Arena, v: Val, key: string): Option<Val> {
    if v.Node? && v.id in nodes && key in nodes[v.id] then Some(nodes[v.id][key]) else None
  }

  function Walk(nodes: Arena, acc: Option<Val>, segments: seq<string>): Walked
    decreases |segments|
  {
    if segments == [] then Reached(acc)
    else if acc.None? || acc.value.Null? then Broken
    else Walk(nodes, Prop(nodes, acc.value, segments[0]), segments[1..])
  }

  /** The walk breaks exactly when some segment other than the last is read
      from `undefined` or `null`; a missing last key yields `undefined`. */
  lemma {:induction false} WalkBroken(nodes: Arena, acc: Option<Val>, segments: seq<string>)
    ensures Walk(nodes, acc, segments).Broken? <==>
              exists i :: 0 <= i < |segments| && WalkPrefix(nodes, acc, segments[..i]) in {None, Some(Null)}
    decreases |segments|
  {
    if segments != [] {
      assert segments[..0] == [];
      if acc.None? || acc.value.Null? {
        assert WalkPrefix(nodes, acc, segments[..0]) in {None, Some(Null)};
      } else {
        var next := Prop(nodes, acc.value, segments[0]);
        WalkBroken(nodes, next, segments[1..]);
        forall i | 0 < i <= |segments|
          ensures WalkPrefix(nodes, acc, segments[..i]) == WalkPrefix(nodes, next, segments[1..][..i - 1])
        {
          assert segments[..i][1..] == segments[1..][..i - 1];
        }
        if Walk(nodes, acc, segments).Broken? {
          var i :| 0 <= i < |segments[1..]| && WalkPrefix(nodes, next, segments[1..][..i]) in {None, Some(Null)};
          assert WalkPrefix(nodes, acc, segments[..i + 1]) in {None, Some(Null)};
        }
        if exists i :: 0 <= i < |segments| && WalkPrefix(nodes, acc, segments[..i]) in {None, Some(Null)} {
          var i :| 0 <= i < |segments| && WalkPrefix(nodes, acc, segments[..i]) in {None, Some(Null)};
          assert i > 0;
          assert WalkPrefix(nodes, next, segments[1..][..i - 1]) in {None, Some(Null)};
        }
      }
    }
  }

  /** The value after the given segments, reading missing properties of
      `undefined` as `undefined`. */
  function WalkPrefix(nodes: Arena, acc: Option<Val>, segments: seq<string>): Option<Val>
    decreases |segments|
  {
    if segments == [] then acc
    else if acc.None? then None
    else WalkPrefix(nodes, Prop(nodes, acc.value, segments[0]), segments[1..])
  }

  lemma {:induction false} WalkClosed(nodes: Arena, universe: set<string>, acc: Option<Val>, segments: seq<string>)
    requires WellFormed(nodes, universe) && (acc.Some? ==> ValOk(acc.value, nodes))
    ensures Walk(nodes, acc, segments).Reached? && Walk(nodes, acc, segments).v.Some? ==>
              ValOk(Walk(nodes, acc, segments).v.value, nodes)
    decreases |segments|
  {
    if segments != [] && !(acc.None? || acc.value.Null?) {
      WalkClosed(nodes, universe, Prop(nodes, acc.value, segments[0]), segments[1..]);
    }
  }

  // ---------------------------------------------------------------------
  // Errors.

  /** `index === self.findIndex(...)`: the first index holding the same error. */
  function FindIndex(s: seq<Error>, e: Error): (i: nat)
    ensures i <= |s|
    ensures i < |s| ==> s[i] == e
    ensures forall j :: 0 <= j < i ==> s[j] != e
  {
    if s == [] then 0 else if s[0] == e then 0 else 1 + FindIndex(s[1..], e)
  }

  /** The error filter of `resolveReferences` over the first n errors: an
      error is kept when no earlier error has the same code and message. */
  function FirstOccurrences(s: seq<Error>, n: nat): seq<Error>
    requires n <= |s|
  {
    if n == 0 then []
    else FirstOccurrences(s, n - 1) + (if FindIndex(s, s[n - 1]) == n - 1 then [s[n - 1]] else [])
  }

  /** The filter keeps the first occurrence of each error, in order: it is
      the order-preserving deduplication. */
  lemma {:induction false} FirstOccurrencesIsDedup(s: seq<Error>, n: nat)
    requires n <= |s|
    ensures FirstOccurrences(s, n) == Dedup(s[..n])
  {
    if n > 0 {
      FirstOccurrencesIsDedup(s, n - 1);
      assert s[..n] == s[..n - 1] + [s[n - 1]];
      assert s[..n][..n - 1] == s[..n - 1];
      var i := FindIndex(s, s[n - 1]);
      if i < n - 1 {
        assert s[n - 1] in s[..n - 1] by { assert s[..n - 1][i] == s[n - 1]; }
      } else {
        assert s[n - 1] !in s[..n - 1];
      }
    }
  }

  /** The returned errors: no error twice, and every reported error is there. */
  lemma ErrorsDeduplicated(s: seq<Error>)
    ensures NoDuplicates(FirstOccurrences(s, |s|))
    ensures forall e :: e in FirstOccurrences(s, |s|) <==> e in s
  {
    FirstOccurrencesIsDedup(s, |s|);
    assert s[..|s|] == s;
    DedupNoDuplicates(s);
    DedupSameElements(s);
  }

  // ---------------------------------------------------------------------
  // Cardinalities for the termination measures.

  lemma {:induction false} SubsetCard<T>(a: set<T>, b: set<T>)
    requires a <= b
    ensures |a| <= |b|
    decreases |b|
  {
    if a != {} {
      var x :| x in a;
      SubsetCard(a - {x}, b - {x});
    }
  }

  /** A set difference shrinks when the first set shrinks and the second grows
      by an element of the first. */
  lemma DifferenceShrinks<T>(a: set<T>, a': set<T>, v: set<T>, v': set<T>, x: T)
    requires a' <= a && v <= v' && x in a && x !in v && x in v'
    ensures |a' - v'| < |a - v|
  {
    assert a' - v' <= (a - v) - {x};
    SubsetCard(a' - v', (a - v) - {x});
  }

  /** The tracker paths a `$ref` loop starting at `base` can enter: one per
      string of the universe. */
  ghost function Candidates(base: seq<string>, universe: set<string>): set<string> {
    set x | x in universe :: FullPath(base + [x])
  }

  /** Entering a new path made of a string of the arena leaves fewer
      candidate paths under `base` unvisited. */
  lemma EnteringProgresses(base: seq<string>, universe: set<string>, visited: set<string>, visited': set<string>, ref: string)
    requires ref in universe && visited <= visited'
    requires EnteredPath(base, Text(ref)) !in visited && EnteredPath(base, Text(ref)) in visited'
    ensures |Candidates(base, universe) - visited'| < |Candidates(base, universe) - visited|
  {
    DifferenceShrinks(Candidates(base, universe), Candidates(base, universe), visited, visited', EnteredPath(base, Text(ref)));
  }

  /** The tracker path a `$ref` step enters: `tracker.enter(ref)` under `base`. */
  function EnteredPath(base: seq<string>, ref: Val): string {
    FullPath(base + [SegmentText(ref)])
  }

  /** A `$ref` value as `join` prints it: null becomes the empty string. */
  function SegmentText(ref: Val): string {
    if ref.Null? then "" else ValText(ref)
  }

  /** Every child node of an object is in s. */
  ghost predicate ChildrenIn(fields: Fields, s: set<NodeId>) {
    forall c :: c in fields.Values && c.Node? ==> c.id in s
  }

  /** The resolver's invariant: the arena is well formed, the files' roots
      are in it, and only its nodes are visited. */
  ghost predicate Coherent(nodes: Arena, files: seq<FileEntry>, universe: set<string>, resolved: set<NodeId>) {
    && WellFormed(nodes, universe)
    && (forall f :: f in files ==> ValOk(f.specification, nodes))
    && resolved <= nodes.Keys
  }

  // ---------------------------------------------------------------------
  // The resolver.

  /** What one pass of the `$ref` loop did: an error was thrown, the
      reference did not lead to an object (the loop breaks), a circular
      reference stopped the loop in break mode, or the referenced content
      was merged into the node. */
  datatype Status = Threw(error: Error) | NotAnObject | CircularStop | Merged(circular: bool)

  /** The result of `resolveReferences`: a thrown error, or the validity,
      the errors and the (rewritten) schema. */
  datatype Outcome = Thrown(error: Error) | Resolved(valid: bool, errors: seq<Error>, schema: Val, document: Arena)

  class Resolver {
    /** The document after `structuredClone`; it is rewritten in place. */
    var nodes: Arena
    /** `resolvedSchemas`: the objects `dereference` has started on. */
    var resolved: set<NodeId>
    /** The error output. */
    var errors: seq<Error>
    /** The `onDereference` calls: the node and the reference merged into it. */
    var trace: seq<(NodeId, string)>

    const tracker: Tracker
    const files: seq<FileEntry>
    const throwOnError: bool
    const mode: Mode
    const messages: Messages
    const segmentsOf: Segmenter
    /** The strings of the document: no step creates a new one. */
    ghost const universe: set<string>

    ghost predicate ChildrenResolved(x: NodeId)
      reads this
      requires x in nodes
    {
      ChildrenIn(nodes[x], resolved)
    }

    ghost predicate Valid()
      reads this, tracker
    {
      tracker.Valid() && Coherent(nodes, files, universe, resolved)
    }

    /** What every step of the resolver keeps: no node is created or dropped,
        the visited set only grows, errors are only ever appended, and the
        tracker is back at the depth it had. */
    twostate predicate Evolves()
      reads this, tracker
    {
      && nodes.Keys == old(nodes.Keys)
      && old(resolved) <= resolved
      && old(errors) <= errors
      && tracker.currentPath == old(tracker.currentPath)
      && old(tracker.visitedPaths) <= tracker.visitedPaths
    }

    /** The nodes of s are not rewritten. */
    twostate predicate Frozen(s: set<NodeId>)
      reads this
    {
      forall x :: x in s && x in old(nodes) ==> x in nodes && nodes[x] == old(nodes)[x]
    }

    /** An error is thrown in throwing mode and pushed onto the errors otherwise. */
    twostate predicate Reported(new thrown: Option<Error>, code: ErrorCode, argument: string)
      reads this
    {
      var e := Error(code, messages(code, argument));
      if throwOnError then thrown == Some(e) && errors == old(errors)
      else thrown.None? && errors == old(errors) + [e]
    }

    constructor (nodes: Arena, files: seq<FileEntry>, throwOnError: bool, mode: Mode,
                 messages: Messages, segmentsOf: Segmenter, errors: seq<Error>)
      requires Closed(nodes) && forall f :: f in files ==> ValOk(f.specification, nodes)
      ensures Valid() && fresh(tracker)
      ensures this.nodes == nodes && this.files == files && this.errors == errors
      ensures this.throwOnError == throwOnError && this.mode == mode
      ensures this.messages == messages && this.segmentsOf == segmentsOf
      ensures resolved == {} && trace == [] && universe == ArenaStrings(nodes)
      ensures tracker.currentPath == [] && tracker.visitedPaths == {}
    {
      this.nodes := nodes;
      this.files := files;
      this.throwOnError := throwOnError;
      this.mode := mode;
      this.messages := messages;
      this.segmentsOf := segmentsOf;
      this.errors := errors;
      resolved := {};
      trace := [];
      universe := ArenaStrings(nodes);
      tracker := new Tracker();
      WellFormedOwnStrings(nodes);
    }

    method Fail(code: ErrorCode, argument: string) returns (thrown: Option<Error>)
      modifies this
      ensures Reported(thrown, code, argument)
      ensures nodes == old(nodes) && resolved == old(resolved) && trace == old(trace)
    {
      var e := Error(code, messages(code, argument));
      if throwOnError {
        thrown := Some(e);
      } else {
        errors := errors + [e];
        thrown := None;
      }
    }

    /** `resolveUri`: the value a reference points to, None for `undefined`. */
    method ResolveUri(uri: Val, file: FileEntry) returns (r: Option<Val>, thrown: Option<Error>)
      requires Valid() && ValOk(file.specification, nodes)
      modifies this, tracker
      ensures Valid() && Evolves() && Frozen(old(resolved))
      ensures r.Some? ==> ValOk(r.value, nodes)
      ensures thrown.Some? ==> r.None? && throwOnError
      // a reference that is not a string is invalid
      ensures !uri.Text? ==>
                r.None? && Reported(thrown, InvalidReference, ValText(uri)) && nodes == old(nodes)
      // a reference into the current file walks its specification
      ensures uri.Text? && !IsExternal(uri.s, file.filename) ==>
                && nodes == old(nodes) && resolved == old(resolved) && trace == old(trace) && unchanged(tracker)
                && var w := Walk(old(nodes), Some(file.specification), segmentsOf(SplitRef(uri.s).1));
                   if w.Broken? then r.None? && Reported(thrown, InvalidReference, uri.s)
                   else r == w.v && thrown.None? && errors == old(errors)
      // a file that is not in the filesystem is an error
      ensures uri.Text? && IsExternal(uri.s, file.filename) && FindFile(files, SplitRef(uri.s).0).None? ==>
                r.None? && Reported(thrown, ExternalReferenceNotFound, SplitRef(uri.s).0) && nodes == old(nodes)
      // a reference to a whole file is that file's specification, as it is
      ensures uri.Text? && IsExternal(uri.s, file.filename) && FindFile(files, SplitRef(uri.s).0).Some?
              && SplitRef(uri.s).1.None? ==>
                r == Some(FindFile(files, SplitRef(uri.s).0).value.specification)
                && thrown.None? && nodes == old(nodes) && errors == old(errors)
      // a path into another file is walked after that file is dereferenced
      ensures uri.Text? && IsExternal(uri.s, file.filename) && FindFile(files, SplitRef(uri.s).0).Some?
              && SplitRef(uri.s).1.Some? && thrown.None? ==>
                var ext := FindFile(files, SplitRef(uri.s).0).value;
                && (ext.specification.Node? ==> ext.specification.id in resolved)
                && var w := Walk(nodes, Some(ext.specification), segmentsOf(SplitRef(uri.s).1));
                   w.Reached? ==> r == w.v
      decreases |nodes.Keys - resolved|, 1, if uri.Text? && IsExternal(uri.s, file.filename) then 1 else 0
    {
      if !uri.Text? {
        thrown := Fail(InvalidReference, ValText(uri));
        return None, thrown;
      }
      var (prefix, path) := SplitRef(uri.s);
      if prefix != "" && prefix != file.filename {
        var ext := FindFile(files, prefix);
        if ext.None? {
          thrown := Fail(ExternalReferenceNotFound, prefix);
          return None, thrown;
        }
        if path.None? {
          return Some(ext.value.specification), None;
        }
        thrown := Dereference(ext.value.specification, ext.value);
        if thrown.Some? {
          return None, thrown;
        }
        SubsetCard(nodes.Keys - resolved, old(nodes.Keys - resolved));
        SplitLocal(path.value);
        r, thrown := ResolveUri(Text("#" + path.value), ext.value);
        return;
      }
      var w := Walk(nodes, Some(file.specification), segmentsOf(path));
      WalkClosed(nodes, universe, Some(file.specification), segmentsOf(path));
      if w.Broken? {
        thrown := Fail(InvalidReference, uri.s);
        return None, thrown;
      }
      return w.v, None;
    }

    /** `dereference`: resolves the object's own `$ref` chain in place,
        then every child object, each object once. */
    method Dereference(v: Val, file: FileEntry) returns (thrown: Option<Error>)
      requires Valid() && ValOk(v, nodes) && ValOk(file.specification, nodes)
      modifies this, tracker
      ensures Valid() && Evolves() && Frozen(old(resolved))
      ensures thrown.Some? ==> throwOnError
      // a value that is not an object, or an object met before, is left alone
      ensures !v.Node? || v.id in old(resolved) ==> thrown.None? && unchanged(this) && unchanged(tracker)
      // an object is recorded before it is processed
      ensures v.Node? ==> v.id in resolved
      // then every child object of the rewritten object is visited
      ensures thrown.None? && v.Node? && v.id !in old(resolved) ==> ChildrenIn(nodes[v.id], resolved)
      // the object's first reference is entered under the current path
      ensures v.Node? && v.id !in old(resolved) && "$ref" in old(nodes)[v.id] ==>
                EnteredPath(old(tracker.currentPath), old(nodes)[v.id]["$ref"]) in tracker.visitedPaths
      decreases |nodes.Keys - resolved|, 0
    {
      if !v.Node? || v.id in resolved {
        return None;
      }
      resolved := resolved + {v.id};
      assert nodes.Keys - resolved == old(nodes.Keys - resolved) - {v.id};
      var last;
      thrown, last := RefLoop(v.id, file);
      if thrown.Some? {
        return;
      }
      SubsetCard(nodes.Keys - resolved, old(nodes.Keys - resolved) - {v.id});
      thrown := Children(v.id, file);
    }

    /** The `while (schema.$ref !== undefined)` loop, as intended: it stops
        after a circular reference in either mode. */
    method RefLoop(id: NodeId, file: FileEntry) returns (thrown: Option<Error>, last: Status)
      requires Valid() && id in resolved && ValOk(file.specification, nodes)
      modifies this, tracker
      ensures Valid() && Evolves() && Frozen(old(resolved) - {id})
      ensures thrown.Some? ==> throwOnError
      // the loop ends with no `$ref` left, or after a step that cannot go on
      ensures thrown.None? ==> "$ref" !in nodes[id] || last.NotAnObject? || last.CircularStop? || last == Merged(true)
      // a circular reference stays, next to `isCircular: true`
      ensures thrown.None? && (last.CircularStop? || last == Merged(true)) ==>
                "$ref" in nodes[id] && "isCircular" in nodes[id] && nodes[id]["isCircular"] == Boolean(true)
      ensures "$ref" in old(nodes)[id] ==>
                EnteredPath(old(tracker.currentPath), old(nodes)[id]["$ref"]) in tracker.visitedPaths
      // a reference that leads to no object stays on the node
      ensures thrown.None? && last.NotAnObject? && "$ref" in old(nodes)[id] ==> "$ref" in nodes[id]
      decreases |nodes.Keys - resolved|, 3
    {
      ghost var base := tracker.currentPath;
      ghost var steps := 0;
      thrown, last := None, NotAnObject;
      while "$ref" in nodes[id]
        invariant Valid() && Evolves() && Frozen(old(resolved) - {id})
        invariant id in resolved && ValOk(file.specification, nodes)
        invariant steps == 0 ==> nodes[id] == old(nodes)[id]
        invariant !last.CircularStop? && last != Merged(true) && thrown.None?
        invariant last.NotAnObject? ==> steps == 0
        invariant steps > 0 && "$ref" in old(nodes)[id] ==>
                    EnteredPath(base, old(nodes)[id]["$ref"]) in tracker.visitedPaths
        decreases |Candidates(base, universe) - tracker.visitedPaths|
      {
        ghost var before, visited := nodes, tracker.visitedPaths;
        SubsetCard(nodes.Keys - resolved, old(nodes.Keys - resolved));
        var status;
        ghost var mid, target;
        status, mid, target := Step(id, file);
        steps := steps + 1;
        last := status;
        match status
        case Threw(e) =>
          thrown := Some(e);
          break;
        case NotAnObject =>
          break;
        case CircularStop =>
          break;
        case Merged(circular) =>
          if circular {
            break;
          }
          EnteringProgresses(base, universe, visited, tracker.visitedPaths, before[id]["$ref"].s);
      }
    }

    /** A state in which the `$ref` loop as written cannot end: mark mode, and
        the object's reference, into the current file, was already entered under
        the current tracker path and names (through a one-segment pointer into
        another object) an object. Every pass is then circular, keeps `$ref` and
        leaves the pointer's target where it was. */
    ghost predicate LoopsForever(id: NodeId, file: FileEntry)
      reads this, tracker
    {
      && mode == Mark && id in nodes && "$ref" in nodes[id]
      && var ref := nodes[id]["$ref"];
      && ref.Text? && !IsExternal(ref.s, file.filename)
      && EnteredPath(tracker.currentPath, ref) in tracker.visitedPaths
      && file.specification.Node? && file.specification.id != id && file.specification.id in nodes
      && var segments := segmentsOf(SplitRef(ref.s).1);
      && |segments| == 1 && segments[0] in nodes[file.specification.id]
      && nodes[file.specification.id][segments[0]].Node?
    }

    /** The `while (schema.$ref !== undefined)` loop as written, run for at
        most `fuel` passes: a circular pass in mark mode keeps `$ref` and the
        loop goes on. `exhausted` says the fuel ran out with `$ref` still there. */
    method RefLoopAsWritten(id: NodeId, file: FileEntry, fuel: nat) returns (thrown: Option<Error>, exhausted: bool)
      requires Valid() && id in resolved && ValOk(file.specification, nodes)
      modifies this, tracker
      ensures Valid() && Evolves()
      ensures thrown.Some? ==> throwOnError && !exhausted
      ensures exhausted ==> "$ref" in nodes[id]
      // from such a state no amount of fuel is enough
      ensures old(LoopsForever(id, file)) ==> exhausted && thrown.None? && LoopsForever(id, file)
      decreases |nodes.Keys - resolved|, 3
    {
      ghost var loops := LoopsForever(id, file);
      thrown, exhausted := None, false;
      var left := fuel;
      while "$ref" in nodes[id]
        invariant Valid() && Evolves()
        invariant id in resolved && ValOk(file.specification, nodes)
        invariant thrown.None? && !exhausted
        invariant loops ==> LoopsForever(id, file)
        decreases left
      {
        if left == 0 {
          exhausted := true;
          break;
        }
        left := left - 1;
        SubsetCard(nodes.Keys - resolved, old(nodes.Keys - resolved));
        var status;
        ghost var mid, target;
        status, mid, target := Step(id, file);
        match status
        case Threw(e) =>
          thrown := Some(e);
          break;
        case NotAnObject =>
          break;
        case CircularStop =>
          break;
        case Merged(_) =>
      }
    }

    /** One pass of the `$ref` loop body, up to its `finally`. */
    method Step(id: NodeId, file: FileEntry) returns (status: Status, ghost mid: Arena, ghost target: NodeId)
      requires Valid() && id in resolved && "$ref" in nodes[id] && ValOk(file.specification, nodes)
      modifies this, tracker
      ensures Valid() && Evolves() && Frozen(old(resolved) - {id})
      ensures status.Threw? ==> throwOnError
      // the reference is entered on the tracker and left again
      ensures EnteredPath(old(tracker.currentPath), old(nodes)[id]["$ref"]) in tracker.visitedPaths
      ensures status.Merged? || status.CircularStop? ==>
                old(nodes)[id]["$ref"].Text? && target in mid && id in mid && mid[id] == old(nodes)[id]
      // a step is circular when its path was entered before
      ensures status.Merged? ==>
                status.circular == (EnteredPath(old(tracker.currentPath), old(nodes)[id]["$ref"]) in old(tracker.visitedPaths))
      ensures status.Merged? && status.circular ==> mode == Mark
      ensures status.CircularStop? ==>
                && mode == Break
                && EnteredPath(old(tracker.currentPath), old(nodes)[id]["$ref"]) in old(tracker.visitedPaths)
                && nodes == mid[id := Marked(old(nodes)[id], true)]
      // the referenced content fills the keys the node does not have
      ensures status.Merged? ==>
                var own := Marked(old(nodes)[id], status.circular);
                nodes == mid[id := Fill(own, if target == id then own else mid[target])]
      // a non-empty reference is reported to `onDereference` last
      ensures status.Merged? && old(nodes)[id]["$ref"].s != "" ==>
                |trace| > 0 && trace[|trace| - 1] == (id, old(nodes)[id]["$ref"].s)
      // a reference into the current file leads to the end of its walk
      ensures var ref := old(nodes)[id]["$ref"];
              ref.Text? && !IsExternal(ref.s, file.filename) ==>
                var w := Walk(old(nodes), Some(file.specification), segmentsOf(SplitRef(ref.s).1));
                && (status.Merged? || status.CircularStop? ==> mid == old(nodes) && w == Reached(Some(Node(target))))
                && (status.Merged? ==> trace == old(trace) + (if ref.s != "" then [(id, ref.s)] else []))
                && (w.Reached? && w.v.Some? && w.v.value.Node? ==> status.Merged? || status.CircularStop?)
      // a non-circular pass enters a path not seen before under the current path
      ensures status.Merged? ==> old(nodes)[id]["$ref"].s in universe
      // a pass that fails or reaches no object leaves the node as it was
      ensures status.NotAnObject? || status.Threw? ==> nodes[id] == old(nodes)[id]
      // a pass from a state the loop as written cannot leave is circular and keeps that state
      ensures old(LoopsForever(id, file)) ==> status == Merged(true) && LoopsForever(id, file)
      decreases |nodes.Keys - resolved|, 2
    {
      var ref := nodes[id]["$ref"];
      var r, thrown, circular := Lookup(ref, file);
      mid := nodes;
      target := id;
      if thrown.Some? {
        status := Threw(thrown.value);
      } else if r.None? || !r.value.Node? {
        status := NotAnObject;
      } else {
        var t := r.value.id;
        target := t;
        var stop := Rewrite(id, t, circular, ref.s);
        status := if stop then CircularStop else Merged(circular);
      }
    }

    /** The tracker-guarded part of a step: `tracker.enter(ref)`, then
        `resolveUri`, then the `tracker.exit()` of the `finally` (which only
        touches the tracker, so it may come before the node is rewritten). */
    method Lookup(ref: Val, file: FileEntry) returns (r: Option<Val>, thrown: Option<Error>, circular: bool)
      requires Valid() && ValOk(file.specification, nodes)
      modifies this, tracker
      ensures Valid() && Evolves() && Frozen(old(resolved))
      ensures r.Some? ==> ValOk(r.value, nodes)
      ensures thrown.Some? ==> r.None? && throwOnError
      ensures !ref.Text? ==> r.None?
      ensures EnteredPath(old(tracker.currentPath), ref) in tracker.visitedPaths
      ensures circular == (EnteredPath(old(tracker.currentPath), ref) in old(tracker.visitedPaths))
      ensures ref.Text? && !IsExternal(ref.s, file.filename) ==>
                && nodes == old(nodes) && resolved == old(resolved) && trace == old(trace)
                && var w := Walk(old(nodes), Some(file.specification), segmentsOf(SplitRef(ref.s).1));
                   if w.Broken? then r.None? else r == w.v && thrown.None?
      decreases |nodes.Keys - resolved|, 1, 2
    {
      circular := tracker.Enter(SegmentText(ref));
      r, thrown := ResolveUri(ref, file);
      tracker.Exit();
    }

    /** The rewrite of the node by one `$ref` step: mark or drop the
        reference, then (unless break mode stops at a circular reference)
        copy the referenced object's keys the node lacks and report the
        reference to `onDereference` when it is not empty. */
    method Rewrite(id: NodeId, t: NodeId, circular: bool, ref: string) returns (stop: bool)
      requires Valid() && id in resolved && t in nodes
      modifies this
      ensures Valid()
      ensures nodes.Keys == old(nodes.Keys)
      ensures resolved == old(resolved) && errors == old(errors)
      ensures stop == (circular && mode == Break)
      ensures stop ==> nodes == old(nodes)[id := Marked(old(nodes)[id], true)] && trace == old(trace)
      ensures !stop ==>
                var own := Marked(old(nodes)[id], circular);
                && nodes == old(nodes)[id := Fill(own, if t == id then own else old(nodes)[t])]
                && trace == old(trace) + (if ref != "" then [(id, ref)] else [])
    {
      var own := Marked(nodes[id], circular);
      stop := circular && mode == Break;
      var next := if stop then own else Fill(own, if t == id then own else nodes[t]);
      nodes := nodes[id := next];
      if !stop && ref != "" {
        trace := trace + [(id, ref)];
      }
    }

    /** The `for (const value of Object.values(schema))` loop: every child
        object is dereferenced (in any order). */
    method Children(id: NodeId, file: FileEntry) returns (thrown: Option<Error>)
      requires Valid() && id in resolved && ValOk(file.specification, nodes)
      modifies this, tracker
      ensures Valid() && Evolves() && Frozen(old(resolved))
      ensures thrown.Some? ==> throwOnError
      ensures thrown.None? ==> ChildrenResolved(id)
      decreases |nodes.Keys - resolved|, 3
    {
      ghost var own := nodes[id];
      var pending := nodes[id].Values;
      thrown := None;
      while pending != {}
        invariant Valid() && Evolves() && Frozen(old(resolved))
        invariant id in resolved && ValOk(file.specification, nodes)
        invariant nodes[id] == own && pending <= own.Values
        invariant forall c :: c in own.Values - pending && c.Node? ==> c.id in resolved
        invariant thrown.None?
        decreases |pending|
      {
        var c :| c in pending;
        pending := pending - {c};
        if c.Node? {
          SubsetCard(nodes.Keys - resolved, old(nodes.Keys - resolved));
          thrown := Dereference(c, file);
          if thrown.Some? {
            return;
          }
        }
      }
    }
  }

  /** `file?.specification ?? entrypoint.specification`. */
  function Input(entrypoint: FileEntry, file: Option<FileEntry>): (v: Val)
    ensures file.Some? && !file.value.specification.Null? ==> v == file.value.specification
    ensures file.None? || file.value.specification.Null? ==> v == entrypoint.specification
  {
    if file.Some? && !file.value.specification.Null? then file.value.specification else entrypoint.specification
  }

  /** `resolveReferences`: dereferences the chosen document in place (on a
      copy: the arena is a value) and returns it with the reported errors,
      each kept once. `reported` is the error list before the filter. */
  method ResolveReferences(nodes: Arena, files: seq<FileEntry>, entrypoint: FileEntry, file: Option<FileEntry>,
                           throwOnError: bool, mode: Mode, messages: Messages, segmentsOf: Segmenter,
                           errors: seq<Error>)
    returns (outcome: Outcome, ghost reported: seq<Error>)
    requires Closed(nodes) && forall f :: f in files ==> ValOk(f.specification, nodes)
    requires ValOk(entrypoint.specification, nodes)
    requires file.Some? ==> ValOk(file.value.specification, nodes)
    ensures outcome.Thrown? ==> throwOnError
    // a document that is not an object is no content
    ensures !Input(entrypoint, file).Node? ==>
              outcome == if throwOnError then Thrown(Error(NoContent, messages(NoContent, "")))
                         else Resolved(false, errors, Input(entrypoint, file), nodes)
    // otherwise the same document comes back, valid exactly when no error was reported
    ensures Input(entrypoint, file).Node? && outcome.Resolved? ==>
              && outcome.schema == Input(entrypoint, file)
              && outcome.document.Keys == nodes.Keys
              && outcome.errors == Dedup(reported) && NoDuplicates(outcome.errors)
              && (forall e :: e in outcome.errors <==> e in reported)
              && outcome.valid == (reported == [])
    // the incoming errors are kept, first, so a call that brings errors is never valid
    ensures Input(entrypoint, file).Node? && outcome.Resolved? ==>
              errors <= reported && Dedup(errors) <= outcome.errors && (errors != [] ==> !outcome.valid)
  {
    var input := Input(entrypoint, file);
    reported := errors;
    if !input.Node? {
      if throwOnError {
        return Thrown(Error(NoContent, messages(NoContent, ""))), reported;
      }
      return Resolved(false, errors, input, nodes), reported;
    }
    var res := new Resolver(nodes, files, throwOnError, mode, messages, segmentsOf, errors);
    var thrown := res.Dereference(input, if file.Some? then file.value else entrypoint);
    if thrown.Some? {
      return Thrown(thrown.value), res.errors;
    }
    var raw := res.errors;
    reported := raw;
    assert raw == errors + raw[|errors|..];
    DedupPrefix(errors, raw[|errors|..]);
    var kept := FirstOccurrences(raw, |raw|);
    ErrorsDeduplicated(raw);
    FirstOccurrencesIsDedup(raw, |raw|);
    assert raw[..|raw|] == raw;
    if raw != [] {
      assert raw[0] in kept;
    }
    outcome := Resolved(|kept| == 0, kept, input, res.nodes);
  }

  /** The document `{a: {$ref: '#/c'}, b: {$ref: '#/c'}, c: {type: 'string'}}`:
      two objects referring to the same schema. */
  function SiblingDocument(): (a: Arena)
    ensures Closed(a) && a.Keys == {0, 1, 2, 3}
    ensures "c" in a[0] && a[0]["c"] == Node(3)
    ensures "$ref" in a[1] && a[1]["$ref"] == Text("#/c") && "$ref" in a[2] && a[2]["$ref"] == Text("#/c")
  {
    map[
      0 := map["a" := Node(1), "b" := Node(2), "c" := Node(3)],
      1 := map["$ref" := Text("#/c")],
      2 := map["$ref" := Text("#/c")],
      3 := map["type" := Text("string")]]
  }

  /** `getSegmentsFromPath` on the one pointer the document uses. */
  function SiblingSegments(path: Option<string>): seq<string> {
    if path == Some("/c") then ["c"] else []
  }

  /** A resolver over the document in mark mode, in which `dereference(a)`
      has recorded `a` (and nothing else has happened yet). */
  method SiblingReferencesStart() returns (res: Resolver, file: FileEntry)
    ensures fresh(res) && fresh(res.tracker) && res.Valid()
    ensures res.nodes == SiblingDocument() && res.resolved == {1} && res.mode == Mark
    ensures res.segmentsOf == SiblingSegments && file == FileEntry("openapi.json", Node(0))
    ensures res.tracker.currentPath == []
  {
    file := FileEntry("openapi.json", Node(0));
    res := new Resolver(SiblingDocument(), [file], false, Mark, (code: ErrorCode, argument: string) => argument,
                        SiblingSegments, []);
    res.resolved := res.resolved + {1};
  }

  /** Dereferencing the document in mark mode, up to the start of `b`'s loop:
      `a` has followed `#/c`, which the tracker now records as visited, and
      the root and `b` are as they were. */
  method SiblingReferencesFollowed() returns (res: Resolver, file: FileEntry)
    ensures fresh(res) && fresh(res.tracker) && res.Valid() && 1 in res.resolved
    ensures res.mode == Mark && res.segmentsOf == SiblingSegments && file == FileEntry("openapi.json", Node(0))
    ensures res.nodes.Keys == {0, 1, 2, 3} && res.nodes[0] == SiblingDocument()[0] && res.nodes[2] == SiblingDocument()[2]
    ensures EnteredPath(res.tracker.currentPath, Text("#/c")) in res.tracker.visitedPaths
  {
    res, file := SiblingReferencesStart();
    ghost var arena := res.nodes;
    var ref := Text("#/c");
    SplitLocal("/c");
    assert ref.s == "#" + "/c";
    assert SplitRef(ref.s) == ("", Some("/c")) && !IsExternal(ref.s, file.filename);
    assert Walk(arena, Some(file.specification), SiblingSegments(SplitRef(ref.s).1)) == Reached(Some(Node(3)));
    // the one pass of `a`'s loop
    var status, mid, target := res.Step(1, file);
  }

  /** `dereference(b)` then starts on `b`, whose reference was entered
      already: the state from which the loop as written never ends. */
  method SiblingSecondStarts() returns (res: Resolver, file: FileEntry)
    ensures fresh(res) && fresh(res.tracker) && res.Valid() && 2 in res.resolved
    ensures ValOk(file.specification, res.nodes) && res.LoopsForever(2, file)
  {
    res, file := SiblingReferencesFollowed();
    res.resolved := res.resolved + {2};
    SplitLocal("/c");
    assert "#/c" == "#" + "/c";
  }

  /** In the default mark mode, the loop as written for `b` never ends: it
      exhausts any fuel. */
  method SiblingReferencesScenario(fuel: nat) returns (exhausted: bool)
    ensures exhausted
  {
    var res, file := SiblingSecondStarts();
    var thrown;
    thrown, exhausted := res.RefLoopAsWritten(2, file, fuel);
  }
}
