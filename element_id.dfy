/** Generators of the HTML element ids of the reference page. */
module ElementId {

  /** The id of a path section: the path itself. */
  function Path(path: string): string
  {
    path
  }

  /** Different paths give different path ids, so a path section is found
      again by its id. */
  lemma PathInjective(p1: string, p2: string)
    ensures Path(p1) == Path(p2) <==> p1 == p2
  {
  }

  /** The id of an operation: the path id, a '/', then the HTTP method. */
  function Operation(path: string, httpMethod: string): (id: string)
    ensures |id| == |path| + |httpMethod| + 1
    ensures id[..|path|] == Path(path) && id[|path|] == '/'
    ensures id[|path| + 1..] == httpMethod
  {
    path + "/" + httpMethod
  }

  /** With a method without '/', the '/' after the path is the last one in
      the id, so no other operation id with such a method has a longer path. */
  lemma LastSlashEndsPath(p1: string, m1: string, p2: string, m2: string)
    requires Operation(p1, m1) == Operation(p2, m2) && '/' !in m1
    ensures |p2| <= |p1|
  {
  }

  /** Operation ids are unique: under one path for any methods, and across
      paths for methods without '/', as HTTP methods are. */
  lemma OperationInjective(p1: string, m1: string, p2: string, m2: string)
    ensures p1 == p2 && Operation(p1, m1) == Operation(p2, m2) ==> m1 == m2
    ensures '/' !in m1 && '/' !in m2 && Operation(p1, m1) == Operation(p2, m2) ==> p1 == p2 && m1 == m2
  {
    if Operation(p1, m1) == Operation(p2, m2) && '/' !in m1 && '/' !in m2 {
      LastSlashEndsPath(p1, m1, p2, m2);
      LastSlashEndsPath(p2, m2, p1, m1);
      assert p1 == Operation(p1, m1)[..|p1|] == p2;
    }
  }

  /** A path id can equal an operation id: the path `/planets/get` and the
      `get` operation of `/planets` share one id. */
  lemma PathOperationCollide()
    ensures Operation("/planets", "get") == Path("/planets/get")
  {
  }
}
