/** Optional values, results, and the ways a run of the script can end early. */
module Outcomes {

  datatype Option<+T> = None | Some(value: T)

  datatype Result<+T, +E> = Ok(value: T) | Err(error: E)

  /** Python's `d.get(key)` (and `os.getenv(key)`, `os.path.exists`): the bound value, or `None`. */
  function Lookup<K, V>(m: map<K, V>, key: K): (r: Option<V>)
    ensures r.Some? <==> key in m
    ensures r.Some? ==> r.value == m[key]
  {
    if key in m then Some(m[key]) else None
  }

  /** Why the script stops before finishing its work. */
  datatype Failure =
      /** `load_env_file` prints the list of empty required variables and exits with status 1. */
    | MissingVariables(names: seq<string>)
      /** `parse_date_to_timestamp` prints the offending date and exits with status 1. */
    | DateOutOfRange(date: string)
      /** `datetime.strptime` rejects a date that does not match `%Y-%m-%d` (an uncaught ValueError). */
    | UnparsableDate(date: string)
      /** Any other exception, which nothing in the script catches. */
    | Raised(message: string)
}
