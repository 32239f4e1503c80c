/** Small value-level helpers shared by the other modules: an Option type,
    the order-preserving de-duplication the source performs with
    `filter`/`findIndex` and with `[...new Set(...)]`, and `Array.prototype.join`. */
module Util {

  /** Some/None, usable with `:-`; None stands for JavaScript's `undefined`
      or, in the schema merger, for a recursion deeper than its fuel. */
  datatype Option<+T> = None | Some(value: T) {
    predicate IsFailure() {
      None?
    }

    function PropagateFailure<U>(): Option<U>
      requires None?
    {
      None
    }

    function Extract(): T
      requires Some?
    {
      value
    }
  }

  /** No element occurs twice. */
  predicate NoDuplicates<T(==)>(s: seq<T>) {
    forall i, j :: 0 <= i < j < |s| ==> s[i] != s[j]
  }

  /** Keeps s[i] exactly when it does not occur in s[..i]: the first occurrence
      of every element, in the original order. */
  function Dedup<T(==)>(s: seq<T>): seq<T>
  {
    if s == [] then []
    else
      var init := s[..|s| - 1];
      var x := s[|s| - 1];
      Dedup(init) + (if x in init then [] else [x])
  }

  /** De-duplication keeps exactly the elements of its input. */
  lemma {:induction false} DedupSameElements<T>(s: seq<T>)
    ensures forall x :: x in Dedup(s) <==> x in s
  {
    if s != [] {
      var init := s[..|s| - 1];
      DedupSameElements(init);
      assert s == init + [s[|s| - 1]];
    }
  }

  /** De-duplication leaves no element twice. */
  lemma {:induction false} DedupNoDuplicates<T>(s: seq<T>)
    ensures NoDuplicates(Dedup(s))
  {
    if s != [] {
      var init := s[..|s| - 1];
      DedupNoDuplicates(init);
      DedupSameElements(init);
    }
  }

  /** A list without repetitions is left as it is. */
  lemma {:induction false} DedupOfNoDuplicates<T>(s: seq<T>)
    requires NoDuplicates(s)
    ensures Dedup(s) == s
  {
    if s != [] {
      var init := s[..|s| - 1];
      assert NoDuplicates(init);
      DedupOfNoDuplicates(init);
      assert s[|s| - 1] !in init by {
        forall i | 0 <= i < |init| ensures init[i] != s[|s| - 1] {
          assert init[i] == s[i];
        }
      }
      assert s == init + [s[|s| - 1]];
    }
  }

  /** Order preservation: what is kept from a prefix stays in front, and the
      rest is kept from the suffix. */
  lemma {:induction false} DedupPrefix<T>(a: seq<T>, b: seq<T>)
    ensures |Dedup(a)| <= |Dedup(a + b)| && Dedup(a + b)[..|Dedup(a)|] == Dedup(a)
  {
    if b != [] {
      var b' := b[..|b| - 1];
      DedupPrefix(a, b');
      assert (a + b)[..|a + b| - 1] == a + b';
    } else {
      assert a + b == a;
    }
  }

  /** De-duplicating twice is de-duplicating once. */
  lemma DedupIdempotent<T>(s: seq<T>)
    ensures Dedup(Dedup(s)) == Dedup(s)
  {
    DedupNoDuplicates(s);
    DedupOfNoDuplicates(Dedup(s));
  }

  /** `Array.prototype.join(sep)` on a list of strings: "" for the empty list. */
  function Join(s: seq<string>, sep: string): string
  {
    if s == [] then ""
    else if |s| == 1 then s[0]
    else s[0] + sep + Join(s[1..], sep)
  }

  /** Joining one more element appends the separator and the element. */
  lemma {:induction false} JoinSnoc(s: seq<string>, x: string, sep: string)
    ensures Join(s + [x], sep) == if s == [] then x else Join(s, sep) + sep + x
  {
    if |s| > 1 {
      assert (s + [x])[1..] == s[1..] + [x];
      JoinSnoc(s[1..], x, sep);
    } else if |s| == 1 {
      assert (s + [x])[1..] == [x];
    }
  }
}
