/**
 * Values shared by every part of the adapter model: optional values (Java
 * `null`), results that may carry an error, and the errors the adapter can
 * raise.  A Java exception is modelled as an `Err` that stops the operation.
 */
module Base {

  datatype Option<+T> = None | Some(value: T)

  /** The failures the adapter code raises or lets escape. */
  datatype Error =
    | UnknownStructure(structure: string)   // BridgeError "Invalid Structure: ..."
    | MissingContainer(container: string)   // BridgeError "The field '...' cannot be found ..."
    | UnexpectedNestedType(field: string)   // RuntimeException for a bracketed field
    | AmbiguousRetrieve                      // BridgeError: more than one result for a retrieve
    | MissingSlug(name: string)             // BridgeError: kappSlug / datastoreSlug missing
    | PatternWithoutFields                   // BridgeError: 'pattern' and 'fields' not given together
    | DuplicateParameter(name: string)      // IllegalStateException from Collectors.toMap
    | ResponseParseError                     // the v2 adapter's catch-all for a malformed response
    | NullPointer                            // NullPointerException
    | ClassCast                              // ClassCastException
    | IndexOutOfBounds                       // ArrayIndexOutOfBounds / IndexOutOfBounds
    | NumberFormat                           // NumberFormatException
    | IllegalArgument                        // IllegalArgumentException (a reversed sub-list range)
    | NoSuchElement                          // NoSuchElementException from an exhausted iterator
    | InvalidMetadata(name: string)         // BridgeError: a metadata entry that must be an integer is not

  datatype Result<+T> = Ok(value: T) | Err(error: Error)
  {
    predicate IsFailure() { Err? }

    function PropagateFailure<U>(): Result<U>
      requires Err?
    {
      Err(error)
    }

    function Extract(): T
      requires Ok?
    {
      value
    }
  }

  /** The items already produced followed by the outcome for the rest: a failure of the rest wins. */
  function Prepend<T>(done: seq<T>, later: Result<seq<T>>): Result<seq<T>>
  {
    if later.Err? then Err(later.error) else Ok(done + later.value)
  }

  /** `n` copies of `x`. */
  function Repeat<T>(x: T, n: nat): (r: seq<T>)
    ensures |r| == n
    ensures forall i :: 0 <= i < n ==> r[i] == x
  {
    if n == 0 then [] else Repeat(x, n - 1) + [x]
  }

  lemma {:induction false} RepeatAdd<T>(x: T, a: nat, b: nat)
    ensures Repeat(x, a + b) == Repeat(x, a) + Repeat(x, b)
    decreases b
  {
    if b > 0 {
      RepeatAdd(x, a, b - 1);
    }
  }

  /** Each item through `f`, in order; the first item that fails makes the whole list fail. */
  function MapOk<A, B>(xs: seq<A>, f: A -> Result<B>): (r: Result<seq<B>>)
    ensures r.Ok? ==> |r.value| == |xs|
    decreases |xs|
  {
    if |xs| == 0 then Ok([])
    else
      var first := f(xs[0]);
      var rest := MapOk(xs[1..], f);
      if first.Err? then Err(first.error)
      else if rest.Err? then rest
      else Ok([first.value] + rest.value)
  }

  /** The `i`-th result is what `f` makes of the `i`-th item. */
  lemma {:induction false} MapOkAt<A, B>(xs: seq<A>, f: A -> Result<B>, i: nat)
    requires MapOk(xs, f).Ok? && i < |xs|
    ensures f(xs[i]) == Ok(MapOk(xs, f).value[i])
    decreases i
  {
    var tail := xs[1..];
    if i > 0 {
      assert tail[i - 1] == xs[i];
      MapOkAt(tail, f, i - 1);
    }
  }

  /** When every item succeeds, so does the list. */
  lemma {:induction false} MapOkAll<A, B>(xs: seq<A>, f: A -> Result<B>)
    requires forall i :: 0 <= i < |xs| ==> f(xs[i]).Ok?
    ensures MapOk(xs, f).Ok?
    decreases |xs|
  {
    if |xs| > 0 {
      var tail := xs[1..];
      forall i | 0 <= i < |tail|
        ensures f(tail[i]).Ok?
      {
        assert tail[i] == xs[i + 1];
      }
      MapOkAll(tail, f);
      assert f(xs[0]).Ok?;
    }
  }

  /** A failing list fails with the error of one of its items. */
  lemma {:induction false} MapOkErr<A, B>(xs: seq<A>, f: A -> Result<B>)
    requires MapOk(xs, f).Err?
    ensures exists i :: 0 <= i < |xs| && f(xs[i]) == Err(MapOk(xs, f).error)
    decreases |xs|
  {
    if f(xs[0]).Ok? {
      MapOkErr(xs[1..], f);
      var j :| 0 <= j < |xs| - 1 && f(xs[1..][j]) == Err(MapOk(xs[1..], f).error);
      assert xs[1..][j] == xs[j + 1];
    }
  }

  /** One more item of a loop that appends each result to `done`. */
  lemma MapOkStep<A, B>(xs: seq<A>, f: A -> Result<B>, i: nat, done: seq<B>)
    requires i < |xs|
    ensures f(xs[i]).Err? ==> Prepend(done, MapOk(xs[i..], f)) == Err(f(xs[i]).error)
    ensures f(xs[i]).Ok? ==>
      Prepend(done, MapOk(xs[i..], f)) == Prepend(done + [f(xs[i]).value], MapOk(xs[i + 1..], f))
  {
    assert xs[i..][0] == xs[i];
    assert xs[i..][1..] == xs[i + 1..];
    var later := MapOk(xs[i + 1..], f);
    if f(xs[i]).Ok? && later.Ok? {
      var v := f(xs[i]).value;
      assert done + ([v] + later.value) == (done + [v]) + later.value;
    }
  }

  /** `f` applied to each element, for an `f` defined on all of them. */
  function MapAll<A, B>(xs: seq<A>, f: A --> B): (ys: seq<B>)
    requires forall i :: 0 <= i < |xs| ==> f.requires(xs[i])
    ensures |ys| == |xs|
    decreases |xs|
  {
    if |xs| == 0 then [] else [f(xs[0])] + MapAll(xs[1..], f)
  }

  /** The `i`-th result is `f` of the `i`-th element. */
  lemma {:induction false} MapAllAt<A, B>(xs: seq<A>, f: A --> B, i: nat)
    requires forall i :: 0 <= i < |xs| ==> f.requires(xs[i])
    requires i < |xs|
    ensures MapAll(xs, f)[i] == f(xs[i])
    decreases i
  {
    if i > 0 {
      var tail := xs[1..];
      assert tail[i - 1] == xs[i];
      MapAllAt(tail, f, i - 1);
    }
  }

  lemma AppendAssoc<T>(a: seq<T>, b: seq<T>, c: seq<T>)
    ensures a + b + c == a + (b + c)
  {
  }

  /** The values `f` gives for the items, in order, skipping the items it gives none for. */
  function Collect<A, B>(xs: seq<A>, f: A -> Option<B>): seq<B>
    decreases |xs|
  {
    if |xs| == 0 then []
    else (if f(xs[0]).Some? then [f(xs[0]).value] else []) + Collect(xs[1..], f)
  }

  /** What `f` gives for an item is collected. */
  lemma {:induction false} CollectHas<A, B>(xs: seq<A>, f: A -> Option<B>, i: nat)
    requires i < |xs| && f(xs[i]).Some?
    ensures f(xs[i]).value in Collect(xs, f)
    decreases i
  {
    if i > 0 {
      var tail := xs[1..];
      assert tail[i - 1] == xs[i];
      CollectHas(tail, f, i - 1);
    }
  }

  /** Everything collected is what `f` gives for some item. */
  lemma {:induction false} CollectFrom<A, B>(xs: seq<A>, f: A -> Option<B>, y: B)
    requires y in Collect(xs, f)
    ensures exists j :: 0 <= j < |xs| && f(xs[j]) == Some(y)
    decreases |xs|
  {
    if f(xs[0]) != Some(y) {
      var tail := xs[1..];
      CollectFrom(tail, f, y);
      var j :| 0 <= j < |tail| && f(tail[j]) == Some(y);
      assert xs[j + 1] == tail[j];
    }
  }

  /** The value `f` gives for the last item it gives one for. */
  function LastSome<A, K, B>(xs: seq<A>, k: K, f: (A, K) -> Option<B>): Option<B>
    decreases |xs|
  {
    if |xs| == 0 then None
    else
      var later := LastSome(xs[1..], k, f);
      if later.Some? then later else f(xs[0], k)
  }

  /** The value of an item that no later item overrides is the last value. */
  lemma {:induction false} LastSomeAt<A, K, B>(xs: seq<A>, k: K, f: (A, K) -> Option<B>, i: nat)
    requires i < |xs| && f(xs[i], k).Some?
    requires forall j :: i < j < |xs| ==> f(xs[j], k).None?
    ensures LastSome(xs, k, f) == f(xs[i], k)
    decreases i
  {
    var tail := xs[1..];
    if i == 0 {
      forall j | 0 <= j < |tail|
        ensures f(tail[j], k).None?
      {
        assert tail[j] == xs[j + 1];
      }
      LastSomeNone(tail, k, f);
    } else {
      forall j | i - 1 < j < |tail|
        ensures f(tail[j], k).None?
      {
        assert tail[j] == xs[j + 1];
      }
      assert tail[i - 1] == xs[i];
      LastSomeAt(tail, k, f, i - 1);
    }
  }

  /** There is no last value exactly when `f` gives none for every item. */
  lemma {:induction false} LastSomeNone<A, K, B>(xs: seq<A>, k: K, f: (A, K) -> Option<B>)
    ensures LastSome(xs, k, f).None? <==> forall j :: 0 <= j < |xs| ==> f(xs[j], k).None?
    decreases |xs|
  {
    if |xs| > 0 {
      var tail := xs[1..];
      LastSomeNone(tail, k, f);
      if forall j :: 0 <= j < |xs| ==> f(xs[j], k).None? {
        forall j | 0 <= j < |tail|
          ensures f(tail[j], k).None?
        {
          assert tail[j] == xs[j + 1];
        }
      }
      if LastSome(xs, k, f).None? {
        forall j | 0 <= j < |xs|
          ensures f(xs[j], k).None?
        {
          if j > 0 {
            assert xs[j] == tail[j - 1];
          }
        }
      }
    }
  }

  /** Some item, from the first on, satisfies `p`. */
  predicate AnyOf<A, K>(xs: seq<A>, k: K, p: (A, K) -> bool)
    decreases |xs|
  {
    |xs| > 0 && (p(xs[0], k) || AnyOf(xs[1..], k, p))
  }

  /** The recursive search finds an item exactly when one exists. */
  lemma {:induction false} AnyOfExists<A, K>(xs: seq<A>, k: K, p: (A, K) -> bool)
    ensures AnyOf(xs, k, p) <==> exists j :: 0 <= j < |xs| && p(xs[j], k)
    decreases |xs|
  {
    if |xs| > 0 {
      var tail := xs[1..];
      AnyOfExists(tail, k, p);
      if exists j :: 0 <= j < |tail| && p(tail[j], k) {
        var j :| 0 <= j < |tail| && p(tail[j], k);
        assert xs[j + 1] == tail[j];
      }
      if exists j :: 0 <= j < |xs| && p(xs[j], k) {
        var j :| 0 <= j < |xs| && p(xs[j], k);
        if j > 0 {
          assert tail[j - 1] == xs[j];
        }
      }
    }
  }
}
