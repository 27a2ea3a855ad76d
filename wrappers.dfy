/** Option and Result, the two failure-carrying wrappers the model uses in place
    of Python's `None` defaults and raised exceptions. */
module Wrappers {

  datatype Option<+T> = None | Some(value: T) {
    /** The wrapped value, or `default` when there is none. */
    function GetOr(default: T): T {
      match this
      case Some(v) => v
      case None => default
    }
  }

  /** `m.get(k)`: the value at `k`, if `m` has one. */
  function Lookup<K, V>(m: map<K, V>, k: K): (r: Option<V>)
    ensures r.Some? <==> k in m
    ensures r.Some? ==> r.value == m[k]
  {
    if k in m then Some(m[k]) else None
  }

  datatype Result<+T, +E> = Ok(value: T) | Err(error: E)

  /** The exceptions that escape from the modelled Python code. */
  datatype PyException =
    | IndexError          // indexing past the end of a list or string
    | NameError           // a variable read before it was ever bound
    | TypeError           // `bytes(x, encoding=...)` of a value that is not a str
    | UnicodeEncodeError  // `bytes(s, encoding='ascii')` of a non-ASCII str
    | ParseError          // `ET.fromstring` of a body that is not well-formed XML
    | UnicodeDecodeError  // `body.decode('utf-8')` of bytes that are not UTF-8
    | AttributeError      // reading `self.svc` of a reader whose parameters were refused

  /** `acc` followed by the successful result, or the error unchanged. */
  function Prepend<T, E>(acc: seq<T>, r: Result<seq<T>, E>): (p: Result<seq<T>, E>)
    ensures p.Ok? <==> r.Ok?
    ensures p.Ok? ==> p.value == acc + r.value
    ensures p.Err? ==> p.error == r.error
  {
    match r
    case Ok(v) => Ok(acc + v)
    case Err(e) => Err(e)
  }

  /** Prepending nothing changes nothing. */
  lemma PrependNothing<T, E>(r: Result<seq<T>, E>)
    ensures Prepend([], r) == r
  {
    if r.Ok? {
      assert [] + r.value == r.value;
    }
  }

  /** Prepending twice is prepending the concatenation. */
  lemma PrependTwice<T, E>(a: seq<T>, b: seq<T>, r: Result<seq<T>, E>)
    ensures Prepend(a, Prepend(b, r)) == Prepend(a + b, r)
  {
    if r.Ok? {
      assert a + (b + r.value) == (a + b) + r.value;
    }
  }
}
