/**
 * Shared vocabulary of the ledger model: optional values, the Python
 * exceptions that the modelled code can raise, bytes, and the abstract
 * digest/serialisation values that hashes are computed over.
 */
module Base {

  /** The conventional Some/None datatype, standing for Python's `None`. */
  datatype Option<+T> = None | Some(value: T)

  /** The Python exceptions that the modelled code lets escape. */
  datatype Exception =
    | KeyError
    | ValueError
    | IndexError
    | ZeroDivisionError
    | AttributeError

  /** Either a normal return or an escaping exception. */
  datatype Result<+T> = Ok(value: T) | Raised(exc: Exception)

  type byte = b: int | 0 <= b < 256

  /**
   * A JSON-like value: the shape of the dicts and lists the source hands
   * to `json.dumps` before hashing. Serialisation and SHA-256 are not
   * interpreted; they are passed around as a `Digest`.
   */
  datatype Json =
    | JStr(str: string)
    | JNum(num: real)
    | JInt(whole: int)
    | JList(items: seq<Json>)
    | JObj(fields: map<string, Json>)

  /** `sha256(json.dumps(v, sort_keys=True).encode()).hexdigest()`, left abstract. */
  type Digest = Json -> string

  /** A digest that maps distinct values to distinct strings (SHA-256 is assumed to behave so). */
  ghost predicate CollisionFree(digest: Digest)
  {
    forall x: Json, y: Json :: digest(x) == digest(y) ==> x == y
  }
}
