/** Option and Result, the shapes the Rust code uses for absent values and fallible calls. */
module Wrappers {

  datatype Option<T> = None | Some(value: T)
  {
    /** `Option::unwrap_or`. */
    function UnwrapOr(default: T): T
    {
      match this
      case None => default
      case Some(v) => v
    }

    /** `Option::or`: this value if present, else `other`. */
    function Or(other: Option<T>): Option<T>
    {
      if this.Some? then this else other
    }
  }

  /** `anyhow::Result<T>`: the error is its rendered message. */
  datatype Result<T> = Ok(value: T) | Err(msg: string)
  {
    /** `Result::ok`. */
    function ToOption(): Option<T>
    {
      match this
      case Ok(v) => Some(v)
      case Err(_) => None
    }
  }

  /** `HashMap::get`, cloned. */
  function Get<K, V>(m: map<K, V>, k: K): (r: Option<V>)
    ensures r.Some? <==> k in m
    ensures r.Some? ==> r.value == m[k]
  {
    if k in m then Some(m[k]) else None
  }
}
