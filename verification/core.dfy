/** The Either-style result types of DiscountApp.

    `Result<T>` carries either a success value or an error text; the
    non-generic `UnitResult` carries only an optional error text. Both are
    value types in the application; here they are immutable datatypes. */
module Core {

  /** A C# nullable: `None` plays the part of `null`. */
  datatype Option<+T> = None | Some(value: T)

  /** `Result<T>` in its two legitimate states. The zero-initialised struct, in
      which both `Value` and `Error` are null, is not representable. */
  datatype Result<+T> = Success(value: T) | Failure(error: string) {

    predicate IsFailure() {
      Failure?
    }

    predicate IsSuccess() {
      Success?
    }

    /** The nullable `Error` property: non-null exactly on failures. */
    function Error(): (e: Option<string>)
      ensures e.Some? <==> IsFailure()
      ensures IsFailure() ==> e.value == error
    {
      match this
      case Success(_) => None
      case Failure(err) => Some(err)
    }

    /** The nullable `Value` property: non-null exactly on successes. */
    function Value(): (v: Option<T>)
      ensures v.Some? <==> IsSuccess()
      ensures IsSuccess() ==> v.value == value
    {
      match this
      case Success(x) => Some(x)
      case Failure(_) => None
    }

    /** Functional map: a failure keeps its error, a success is mapped. */
    function Select<U>(selector: T -> U): (r: Result<U>)
      ensures r.IsFailure() <==> IsFailure()
      ensures r.Error() == Error()
      ensures IsSuccess() ==> r.Value() == Some(selector(value))
    {
      match this
      case Success(x) => Success(selector(x))
      case Failure(err) => Failure(err)
    }

    /** Monadic bind: a failure propagates its error, a success continues. */
    function Bind<U>(bind: T -> Result<U>): (r: Result<U>)
      ensures IsFailure() ==> r.IsFailure() && r.Error() == Error()
      ensures IsSuccess() ==> r == bind(value)
    {
      match this
      case Success(x) => bind(x)
      case Failure(err) => Failure(err)
    }

    /** Bind into the non-generic result. */
    function BindUnit(bind: T -> UnitResult): (r: UnitResult)
      ensures IsFailure() ==> r.IsFailure() && r.error == Error()
      ensures IsSuccess() ==> r == bind(value)
    {
      match this
      case Success(x) => bind(x)
      case Failure(err) => UnitResult(Some(err))
    }
  }

  /** The implicit conversion from an error text. */
  function ConvertError<T>(error: string): (r: Result<T>)
    ensures r.IsFailure() && r.Error() == Some(error)
  {
    Failure(error)
  }

  /** The implicit conversion from a value. */
  function ConvertValue<T>(value: T): (r: Result<T>)
    ensures r.IsSuccess() && r.Value() == Some(value)
  {
    Success(value)
  }

  /** The non-generic `Result`: success exactly when there is no error. */
  datatype UnitResult = UnitResult(error: Option<string>) {

    predicate IsFailure() {
      error.Some?
    }

    predicate IsSuccess() {
      error.None?
    }

    /** On success runs the selector; on failure keeps the error. */
    function Select(selector: () -> UnitResult): (r: UnitResult)
      ensures IsSuccess() ==> r == selector()
      ensures IsFailure() ==> r.IsFailure() && r.error == error
    {
      match error
      case None => selector()
      case Some(_) => this
    }

    /** The successful result. */
    static function Ok(): (r: UnitResult)
      ensures r.IsSuccess() && !r.IsFailure()
    {
      UnitResult(None)
    }

    /** The implicit conversion from an error text. */
    static function ConvertError(e: string): (r: UnitResult)
      ensures r.IsFailure() && r.error == Some(e)
    {
      UnitResult(Some(e))
    }
  }

  /** `Select` with the identity changes nothing. */
  lemma SelectIdentity<T>(r: Result<T>)
    ensures r.Select(x => x) == r
  {
  }

  /** Two `Select`s compose into one. */
  lemma SelectComposition<T, U, V>(r: Result<T>, f: T -> U, g: U -> V)
    ensures r.Select(f).Select(g) == r.Select(x => g(f(x)))
  {
  }

  /** `Select` is `Bind` followed by the value conversion. */
  lemma SelectIsBind<T, U>(r: Result<T>, f: T -> U)
    ensures r.Select(f) == r.Bind(x => ConvertValue(f(x)))
  {
  }

  /** Binding a converted value applies the continuation to it. */
  lemma BindLeftIdentity<T, U>(v: T, f: T -> Result<U>)
    ensures ConvertValue(v).Bind(f) == f(v)
  {
  }

  /** Binding the value conversion changes nothing. */
  lemma BindRightIdentity<T>(r: Result<T>)
    ensures r.Bind(x => ConvertValue(x)) == r
  {
  }

  /** Nested binds may be regrouped. */
  lemma BindAssociativity<T, U, V>(r: Result<T>, f: T -> Result<U>, g: U -> Result<V>)
    ensures r.Bind(f).Bind(g) == r.Bind(x => f(x).Bind(g))
  {
  }
}
