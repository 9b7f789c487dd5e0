/**
  The SCS-Collect report after `yaml.load`: an abstract YAML document, and
  the Python 2 conversions `prepare_gt` applies to its scalars (`'%s'` and
  `int()`).
 */
module ScsValues {
  import opened Wrappers
  import opened PyText

  /**
    A mapping key as the YAML loader returns it: an integer, a string, or any
    other scalar (a boolean, a float, a date, null), given with its `str()`.
   */
  datatype Key = IntKey(i: int) | StrKey(s: string) | OtherKey(text: string)

  /**
    A YAML value. `Other` stands for the scalars the module never inspects
    (floats, dates), given with their `str()`.
   */
  datatype Value =
    | Null
    | Bool(b: bool)
    | Int(n: int)
    | Str(s: string)
    | Mapping(m: map<Key, Value>)
    | List(items: seq<Value>)
    | Other(text: string)

  /** The exceptions the steps can raise; none of them is caught by the module. */
  datatype Failure =
    | KeyError
    | TypeError
    | ValueError
    | AttributeError
      /** A conversion whose Python result the model does not define (see `Format` and `ToInt`). */
    | Unmodelled

  /** Python 2 `type(k) is int`: an integer key that fits a machine word (a larger one is a `long`). */
  predicate IsPyInt(k: Key)
  {
    k.IntKey? && -0x8000_0000_0000_0000 <= k.i < 0x8000_0000_0000_0000
  }

  /** `'%s' % k` for a key. */
  function FormatKey(k: Key): string
  {
    match k
    case IntKey(i) => IntToString(i)
    case StrKey(s) => s
    case OtherKey(text) => text
  }

  /** `'%s' % v` for a value; the `repr` of a mapping or a list is not modelled. */
  function Format(v: Value): (r: Option<string>)
    ensures r.None? <==> v.Mapping? || v.List?
  {
    match v
    case Null => Some("None")
    case Bool(b) => Some(if b then "True" else "False")
    case Int(n) => Some(IntToString(n))
    case Str(s) => Some(s)
    case Other(text) => Some(text)
    case _ => None
  }

  /**
    `int(v)`: an integer is itself, a boolean is 1 or 0, a string is parsed
    (`ValueError` if it is not a numeral), and null, a mapping or a list raise
    `TypeError`; the truncation of a float is not modelled.
   */
  function ToInt(v: Value): (r: Result<int, Failure>)
    ensures r.Err? ==> r.error in {TypeError, ValueError, Unmodelled}
    ensures v.Int? ==> r == Ok(v.n)
    ensures v.Str? ==> (r.Ok? <==> ParseInt(v.s).Some?) && (r.Ok? ==> ParseInt(v.s) == Some(r.value))
    ensures r == Err(TypeError) <==> v.Null? || v.Mapping? || v.List?
  {
    match v
    case Int(n) => Ok(n)
    case Bool(b) => Ok(if b then 1 else 0)
    case Str(s) => (match ParseInt(s) case Some(n) => Ok(n) case None => Err(ValueError))
    case Other(_) => Err(Unmodelled)
    case _ => Err(TypeError)
  }

  /** `int` reads back the integers `str` prints. */
  lemma ToIntOfPrinted(n: int)
    ensures ToInt(Str(IntToString(n))) == Ok(n)
  {
    ParseIntOfIntToString(n);
  }
}
