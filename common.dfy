/** Shared vocabulary of the bot: optional values, the fallible results its
    tasks and roles return, and the values the game's persistent `Memory`
    tree holds. */
module Common {

  datatype Option<T> = None | Some(value: T)

  /** `Result<T, Box<dyn Error>>`; the error is kept as its message. */
  datatype Result<T> = Ok(value: T) | Err(msg: string)

  /** Object ids and names are strings in the game. */
  type Id = string

  /** A value stored under a key of the persistent memory tree. `Other`
      stands for anything the bot cannot read as one of the first three
      (a nested dictionary, an array, a float). */
  datatype Value = Int(i: int) | Str(s: string) | Bool(b: bool) | Other

  /** `m.i32(key).unwrap_or(None).unwrap_or(d)`: a missing entry and an
      entry that is not an integer both read as `d`. */
  function IntOr(m: map<string, Value>, key: string, d: int): int
  {
    if key in m && m[key].Int? then m[key].i else d
  }

  /** `m.string(key)`: `Ok(Some(s))` for a string, `Ok(None)` when the key
      is absent, and a conversion error for any other value. */
  function StringEntry(m: map<string, Value>, key: string): Result<Option<string>>
  {
    if key !in m then Ok(None)
    else if m[key].Str? then Ok(Some(m[key].s))
    else Err("expected a string")
  }

  /** `m.string(key).unwrap_or(None)` */
  function StrOf(m: map<string, Value>, key: string): Option<string>
  {
    match StringEntry(m, key)
    case Ok(v) => v
    case Err(_) => None
  }

  /** `m.bool(key)`, which reads the entry with JavaScript's `Boolean(..)`. */
  function Truthy(m: map<string, Value>, key: string): bool
  {
    if key !in m then false
    else match m[key]
      case Int(i) => i != 0
      case Str(s) => s != ""
      case Bool(b) => b
      case Other => true
  }

  /** A counter dictionary entry, absent entries reading as 0. */
  function Count(m: map<Id, int>, key: Id): int
  {
    if key in m then m[key] else 0
  }

  /** `counter.set(id, 1 + counter.i32(id).unwrap_or(0))` on a counter dictionary. */
  function Bump(m: map<Id, int>, key: Id): (r: map<Id, int>)
    ensures r.Keys == m.Keys + {key}
    ensures Count(r, key) == Count(m, key) + 1
    ensures forall k :: k != key ==> Count(r, k) == Count(m, k)
  {
    m[key := Count(m, key) + 1]
  }

  /** `r` is `s` with some elements left out, the rest in their order. */
  predicate Subsequence<T(==)>(r: seq<T>, s: seq<T>)
    decreases |s|
  {
    if |r| == 0 then true
    else if |s| == 0 then false
    else
      || (r[|r| - 1] == s[|s| - 1] && Subsequence(r[..|r| - 1], s[..|s| - 1]))
      || Subsequence(r, s[..|s| - 1])
  }

  /** The index of the first element of `s` that satisfies `p`: the
      element a `find(..)` followed by a first-match filter yields. */
  function FirstWhere<T>(s: seq<T>, p: T -> bool): (r: Option<nat>)
    ensures r.Some? ==> r.value < |s| && p(s[r.value])
    ensures r.Some? ==> forall j :: 0 <= j < r.value ==> !p(s[j])
    ensures r.None? <==> forall j :: 0 <= j < |s| ==> !p(s[j])
  {
    if |s| == 0 then None
    else if p(s[0]) then Some(0)
    else match FirstWhere(s[1..], p)
      case None => None
      case Some(k) => Some(k + 1)
  }
}
