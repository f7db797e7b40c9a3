/** Runs of LEB128 fields at the front of a byte string. */
module Fields {
  import opened Options
  import opened Leb128

  datatype Taken = Taken(raw: Bytes, rest: Bytes)

  /** How many bytes the `n` LEB128 fields at the front of `s` take. */
  function LebsLength(s: Bytes, n: nat): (r: Option<nat>)
    ensures r.Some? ==> r.value <= |s|
  {
    if n == 0 then Some(0)
    else
      match Decode(s)
      case None => None
      case Some(l) =>
        match LebsLength(s[l.length..], n - 1)
        case None => None
        case Some(k) => Some(l.length + k)
  }

  /** `n` LEB128 fields from the front of `s`, unsplit. */
  function TakeLebs(s: Bytes, n: nat): (r: Option<Taken>)
    ensures r.Some? ==> r.value.raw + r.value.rest == s
  {
    match LebsLength(s, n)
    case None => None
    case Some(k) => Some(Taken(s[..k], s[k..]))
  }

  /** `x` is exactly `n` LEB128 fields. */
  predicate AreLebs(x: Bytes, n: nat) {
    LebsLength(x, n) == Some(|x|)
  }

  function ValueOf(x: Bytes): nat {
    match Decode(x)
    case None => 0
    case Some(l) => l.value
  }

  lemma DecodeFront(s: Bytes, t: Bytes)
    requires Decode(s).Some?
    ensures Decode(s[..Decode(s).value.length] + t) == Decode(s)
  {
    DecodeIsLocal(s, t, MAX_LEB_BYTES);
  }

  lemma Resplit<T>(s: seq<T>, l: nat, k: nat, u: seq<T>)
    requires l <= k <= |s|
    ensures s[..k] + u == s[..l] + (s[l..k] + u)
    ensures (s[..k] + u)[l..] == s[l..][..k - l] + u
  {
  }

  lemma {:induction false} LebsLengthIsLocal(s: Bytes, n: nat, u: Bytes)
    requires LebsLength(s, n).Some?
    ensures LebsLength(s[..LebsLength(s, n).value] + u, n) == LebsLength(s, n)
  {
    if n > 0 {
      hide Decode;
      var k, l := LebsLength(s, n).value, Decode(s).value.length;
      DecodeFront(s, s[l..k] + u);
      Resplit(s, l, k, u);
      LebsLengthIsLocal(s[l..], n - 1, u);
    }
  }

  lemma TakenAreLebs(s: Bytes, n: nat)
    requires TakeLebs(s, n).Some?
    ensures AreLebs(TakeLebs(s, n).value.raw, n)
  {
    LebsLengthIsLocal(s, n, []);
    assert TakeLebs(s, n).value.raw + [] == TakeLebs(s, n).value.raw;
  }

  lemma LebsAreTaken(x: Bytes, n: nat, u: Bytes)
    requires AreLebs(x, n)
    ensures TakeLebs(x + u, n) == Some(Taken(x, u))
  {
    LebsLengthIsLocal(x, n, u);
    assert x[..|x|] == x;
  }
}
