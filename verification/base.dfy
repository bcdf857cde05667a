/** Small generic building blocks shared by the whole model: optional values,
    the exceptions the persistence layer can raise, and picking the element of a
    one-element set (what `QuerySet.get` does when exactly one row matches). */
module Base {

  datatype Option<+T> = None | Some(value: T)

  /** The exceptions of the persistence layer that the model keeps apart. */
  datatype DbError =
    | ValueError              // a required argument is missing
    | IntegrityError          // a save guard or a unique constraint refused the write
    | DoesNotExist            // `get` matched no row
    | MultipleObjectsReturned // `get` matched more than one row

  datatype Result<+T> = Ok(value: T) | Err(error: DbError)

  lemma SingletonIsUnique<T>(xs: set<T>)
    requires |xs| == 1
    ensures forall a, b | a in xs && b in xs :: a == b
  {
    var x :| x in xs;
    assert |xs - {x}| == |xs| - 1 == 0;
    assert xs == {x};
  }

  /** The only element of a one-element set. */
  function Pick<T>(xs: set<T>): (x: T)
    requires |xs| == 1
    ensures x in xs
    ensures xs == {x}
  {
    SingletonIsUnique(xs);
    var x :| x in xs; x
  }

  /** `get` over the set of matching rows: exactly one match succeeds. */
  function GetOne<T>(xs: set<T>): (r: Result<T>)
    ensures r.Ok? <==> |xs| == 1
    ensures r.Ok? ==> xs == {r.value}
    ensures xs == {} <==> r == Err(DoesNotExist)
    ensures |xs| > 1 <==> r == Err(MultipleObjectsReturned)
  {
    if |xs| == 1 then Ok(Pick(xs))
    else if |xs| == 0 then Err(DoesNotExist)
    else Err(MultipleObjectsReturned)
  }

  /** A subset is no larger than the set that holds it. */
  lemma {:induction false} SubsetSize<T>(a: set<T>, b: set<T>)
    requires a <= b
    ensures |a| <= |b|
    decreases b
  {
    if a != {} {
      var x :| x in a;
      SubsetSize(a - {x}, b - {x});
    }
  }
}
