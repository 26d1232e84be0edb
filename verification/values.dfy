/**
 * The values the store and the views pass around: Firestore field values as
 * JavaScript sees them, documents as maps from field name to value, and the
 * error and result types that stand for rejected promises.
 */
module Values {

  datatype Option<T> = None | Some(value: T)

  /** Why a remote call rejected: a transport or permission fault, or an update of a document that does not exist. */
  datatype Error = Remote(reason: string) | NotFound(id: string)

  /** A settled promise: resolved with a value, or rejected with an error. */
  datatype Result<T> = Success(value: T) | Failure(error: Error)

  /** Instants, as the clock supplies them (milliseconds since the epoch). */
  type Time = int

  /** A field value. Numbers are integers here; `Null` is an explicit null, an absent key is `undefined`. */
  datatype Value = Str(s: string) | Num(n: int) | Bool(b: bool) | Date(t: Time) | Null

  /** A stored document, or an object literal written into the store. */
  type Document = map<string, Value>

  /** JavaScript truthiness; `''`, `0`, `false` and `null` are the falsy values modelled. */
  predicate Truthy(v: Value): (b: bool)
    ensures !b <==> v in {Str(""), Num(0), Bool(false), Null}
  {
    match v
    case Str(s) => s != ""
    case Num(n) => n != 0
    case Bool(b) => b
    case Date(_) => true
    case Null => false
  }

  /**
   * `d[k] || ''`: a string field, even `''`, reads as itself; a missing or
   * falsy field reads as `''`; only a truthy non-string stays a non-string.
   */
  function OrEmpty(d: Document, k: string): (v: Value)
    ensures v.Str? <==> k !in d || !Truthy(d[k]) || d[k].Str?
    ensures v.Str? ==> v.s == if k in d && d[k].Str? then d[k].s else ""
    ensures !v.Str? ==> k in d && v == d[k]
  {
    if k in d && Truthy(d[k]) then d[k] else Str("")
  }

  /**
   * `{...d, ...patch}`, and equally Firestore's `updateDoc(ref, patch)` on the
   * top-level fields: the patch's fields win, every other field of `d` stays.
   */
  function Merge(d: Document, patch: Document): (r: Document)
    ensures r.Keys == d.Keys + patch.Keys
    ensures forall k :: k in patch ==> r[k] == patch[k]
    ensures forall k :: k in d && k !in patch ==> r[k] == d[k]
  {
    d + patch
  }
}
