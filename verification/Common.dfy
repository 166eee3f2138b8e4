/** Results, errors and small collection helpers shared by every service. */
module Common {

  datatype Option<+T> = None | Some(value: T)

  // The error classes of src/errors/errors.ts, the HTTP refusal the controllers throw, and the
  // rejection of a statement by the database (a unique or foreign-key violation).
  datatype Error =
    | NotInDB
    | AlreadyInDB
    | ForbiddenId
    | ClientError
    | PermissionError
    | TokenNotValid
    | TooManyTokens
    | PermissionsUpdateInconsistent
    | MediaBackendError
    | Unauthorized
    | QueryFailed

  datatype Result<+T> = Ok(value: T) | Err(error: Error)

  // A list that holds each of its elements once.
  predicate Distinct<T(==)>(xs: seq<T>) {
    forall i, j :: 0 <= i < j < |xs| ==> xs[i] != xs[j]
  }

  // The set of elements of a list, the `new Set(array)` of the source.
  function Elements<T>(xs: seq<T>): set<T> {
    set x | x in xs
  }

  // Concatenation is associative.
  lemma Associative<T>(a: seq<T>, b: seq<T>, c: seq<T>)
    ensures a + (b + c) == a + b + c
  {
  }

  // One more element of a list without repetition.
  lemma NextElement<T>(list: seq<T>, i: nat)
    requires i < |list|
    ensures Elements(list[..i + 1]) == Elements(list[..i]) + {list[i]}
    ensures Distinct(list) ==> list[i] !in Elements(list[..i])
    ensures Elements(list[..|list|]) == Elements(list)
  {
  }

  // The rows a repository's `find` returns: every element once, in an order the store picks.
  method Rows<T(==)>(rows: set<T>) returns (list: seq<T>)
    ensures Elements(list) == rows
    ensures Distinct(list)
  {
    list := [];
    var todo := rows;
    while todo != {}
      invariant todo <= rows
      invariant Elements(list) == rows - todo
      invariant Distinct(list)
      decreases todo
    {
      var x :| x in todo;
      assert x !in list by { assert x !in Elements(list); }
      assert Elements(list + [x]) == Elements(list) + {x};
      list := list + [x];
      todo := todo - {x};
    }
  }
}
