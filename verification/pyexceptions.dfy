/** The part of Python's exception class tree that the bot's `except` clauses look at, with the
    classes of the `requests` library, and `isinstance` on it. */
module PyExceptions {
  import opened Wrappers

  /** An exception class: a built-in one, one of `requests.exceptions`, or any other class
      derived (single inheritance) from one of these. */
  datatype ExcClass =
    | BaseException
    | Exception
    | CancelledError
    | OSError
    | ValueError
    | AttributeError
    | RequestException
    | HTTPError
    | ConnectionError
    | Timeout
    | Derived(name: string, base: ExcClass)

  /** Distance to `BaseException`, the root of the tree. */
  function Depth(c: ExcClass): nat {
    match c
    case BaseException => 0
    case Exception => 1
    case CancelledError => 1
    case OSError => 2
    case ValueError => 2
    case AttributeError => 2
    case RequestException => 3
    case HTTPError => 4
    case ConnectionError => 4
    case Timeout => 4
    case Derived(_, b) => Depth(b) + 1
  }

  /** The direct base class; `asyncio.CancelledError` derives from `BaseException` (Python 3.8
      and later), `requests.RequestException` from `IOError`, the name `OSError` has. */
  function Base(c: ExcClass): (b: Option<ExcClass>)
    ensures b.None? <==> c == BaseException
    ensures b.Some? ==> Depth(b.value) + 1 == Depth(c)
  {
    match c
    case BaseException => None
    case Exception => Some(BaseException)
    case CancelledError => Some(BaseException)
    case OSError => Some(Exception)
    case ValueError => Some(Exception)
    case AttributeError => Some(Exception)
    case RequestException => Some(OSError)
    case HTTPError => Some(RequestException)
    case ConnectionError => Some(RequestException)
    case Timeout => Some(RequestException)
    case Derived(_, b) => Some(b)
  }

  /** `issubclass(c, d)`: `d` is `c` or one of its ancestors; an instance of `c` is an
      instance of `d`. */
  predicate IsSubclass(c: ExcClass, d: ExcClass)
    decreases Depth(c)
  {
    c == d || (Base(c).Some? && IsSubclass(Base(c).value, d))
  }

  /** Every exception class derives from `BaseException`. */
  lemma {:induction false} RootedAtBaseException(c: ExcClass)
    ensures IsSubclass(c, BaseException)
    decreases Depth(c)
  {
    if c != BaseException {
      RootedAtBaseException(Base(c).value);
    }
  }

  /** A subclass of a subclass is a subclass. */
  lemma {:induction false} SubclassTransitive(a: ExcClass, b: ExcClass, c: ExcClass)
    requires IsSubclass(a, b) && IsSubclass(b, c)
    ensures IsSubclass(a, c)
    decreases Depth(a)
  {
    if a != b {
      SubclassTransitive(Base(a).value, b, c);
    }
  }

  /** `HTTPError` derives from `RequestException`, which derives from `Exception`. */
  lemma RequestsHierarchy()
    ensures IsSubclass(HTTPError, RequestException)
    ensures IsSubclass(RequestException, Exception)
  {
    assert IsSubclass(OSError, Exception) by {
      assert Base(OSError) == Some(Exception);
    }
    assert Base(RequestException) == Some(OSError);
  }
}
