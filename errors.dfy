/** The exceptions the engine raises or records, and the wrappers that carry them. */
module Errors {
  import opened PyValues

  datatype Option<+T> = None | Some(value: T)

  /** The Python exceptions the modelled code raises, catches or records. */
  datatype Error =
    | KeyError(key: string)
    | IndexError
    | TypeError
    | ValueError
    | AttributeError
    | OSError
    | NotImplementedError
    | ImportError(name: string)
    | FileNotFoundError(causes: seq<Error>)
    | ConnectionError
    | HTTPError
    | Timeout
    | OtherError
    | DownloadError(failure: DownloadFailure)

  /** What a `DownloadError` reports. */
  datatype DownloadFailure =
    | ChecksumMismatch(expected: Option<string>, got: string)
    | NoConsistentKey(attempts: seq<(EntryKey, seq<Error>)>)

  /** A value, or the exception raised instead of returning it. */
  datatype Result<+T> = Ok(value: T) | Err(error: Error) {
    predicate IsFailure() { Err? }

    function PropagateFailure<U>(): Result<U>
      requires Err?
    {
      Err(error)
    }

    function Extract(): T
      requires Ok?
    {
      value
    }
  }

  /** `v[0]`: the first item or character; `IndexError` when empty, `TypeError` when not subscriptable. */
  function Index0(v: Value): (r: Result<Value>)
    ensures r.Ok? <==> (v.Str? && |v.s| > 0) || ((v.List? || v.Tuple?) && |v.items| > 0) || (v.Bytes? && |v.data| > 0)
  {
    match v
    case Str(s) => if |s| > 0 then Ok(Str([s[0]])) else Err(IndexError)
    case Bytes(d) => if |d| > 0 then Ok(Int(d[0])) else Err(IndexError)
    case List(items) => if |items| > 0 then Ok(items[0]) else Err(IndexError)
    case Tuple(items) => if |items| > 0 then Ok(items[0]) else Err(IndexError)
    case _ => Err(TypeError)
  }

  /** The string a value contributes to `+` with a string: `TypeError` unless it is a string. */
  function AsStr(v: Value): (r: Result<string>)
    ensures r.Ok? <==> v.Str?
    ensures r.Ok? ==> r.value == v.s
  {
    if v.Str? then Ok(v.s) else Err(TypeError)
  }
}
