module Options {
  datatype Option<+T> = None | Some(value: T)

  function Min(a: nat, b: nat): nat { if a < b then a else b }

  /** The last `limit` elements of a sequence, or all of it when it is shorter. */
  function Tail<T>(s: seq<T>, limit: nat): seq<T> {
    s[|s| - Min(limit, |s|)..]
  }

  /** Adding one element to a tail and trimming it again gives the tail of the extended sequence. */
  lemma TailOfExtended<T>(s: seq<T>, x: T, limit: nat)
    ensures Tail(Tail(s, limit) + [x], limit) == Tail(s + [x], limit)
    ensures |Tail(s, limit)| == Min(limit, |s|)
  {
  }
}
