/**
 * The identifier builder (`createId`, src/index.ts:45-48).
 *
 * An identifier is four dash-joined segments: a random token, the last six
 * characters of the millisecond clock's decimal text, a second random token,
 * and the first six characters of the seed.  The random tokens and the clock
 * text are parameters of the model.
 */
module Ids {
  import opened Wrappers

  /** The alphabet nanoid draws from: A-Z, a-z, 0-9, '_' and '-'. */
  predicate IsNanoidChar(c: char)
  {
    ('A' <= c <= 'Z') || ('a' <= c <= 'z') || ('0' <= c <= '9') || c == '_' || c == '-'
  }

  /** What `nanoid(6)` returns: six characters of its alphabet. */
  type Token = s: string | |s| == 6 && forall i :: 0 <= i < |s| ==> IsNanoidChar(s[i])
    witness "AAAAAA"

  function Min(a: int, b: int): int
  {
    if a <= b then a else b
  }

  /** How `String.prototype.slice` resolves one index: a negative index counts from the end. */
  function SliceIndex(i: int, len: nat): nat
  {
    if i < 0 then (if len + i < 0 then 0 else len + i)
    else if i < len then i
    else len
  }

  /** `s.slice(start, end)` with JavaScript's clamping of both indices. */
  function JsSlice(s: string, start: int, end: int): (r: string)
    ensures 0 <= start <= end <= |s| ==> r == s[start..end]
    ensures end <= start && 0 <= end ==> r == []
    ensures |r| <= |s|
    ensures start <= end ==> |r| <= end - start
  {
    var from, to := SliceIndex(start, |s|), SliceIndex(end, |s|);
    if from < to then s[from..to] else []
  }

  /** The default parameter `str = nanoid(6)`: an absent seed is replaced by a fresh token. */
  function DefaultSeed(seed: Option<string>, fallback: Token): (s: string)
    ensures seed.Some? ==> s == seed.value
    ensures seed.None? ==> s == fallback
  {
    if seed.Some? then seed.value else fallback
  }

  /**
   * `createId(seed)`: r1, the stamp segment `ts.slice(|ts| - 6, |ts|)`, r2 and
   * `seed.slice(0, 6)`, joined by '-'.  An identifier is never empty, so
   * `getSocket` never mistakes it for a falsy key.
   */
  function CreateId(r1: Token, ts: string, r2: Token, seed: string): (id: string)
    ensures 15 <= |id| <= 27
    ensures id[..6] == r1 && id[6] == '-'
  {
    r1 + "-" + JsSlice(ts, |ts| - 6, |ts|) + "-" + r2 + "-" + JsSlice(seed, 0, 6)
  }

  /** The four segments of an identifier, recovered by position. */
  datatype IdParts = IdParts(first: string, stamp: string, second: string, seedPrefix: string)

  predicate AllNanoid(s: string)
  {
    forall i :: 0 <= i < |s| ==> IsNanoidChar(s[i])
  }

  /**
   * Splits an identifier by position (6, 1, 6, 1, 6, 1, at most 6).  Splitting
   * on '-' would not do: '-' belongs to nanoid's alphabet.
   */
  function ParseId(id: string): (r: Option<IdParts>)
    ensures r.Some? ==> |r.value.first| == 6 && |r.value.stamp| == 6 && |r.value.second| == 6
    ensures r.Some? ==> |r.value.seedPrefix| <= 6
    ensures r.Some? ==> AllNanoid(r.value.first) && AllNanoid(r.value.second)
  {
    if 21 <= |id| <= 27 && id[6] == '-' && id[13] == '-' && id[20] == '-'
       && AllNanoid(id[..6]) && AllNanoid(id[14..20])
    then Some(IdParts(id[..6], id[7..13], id[14..20], id[21..]))
    else None
  }

  /**
   * With a clock text of at least six characters (`Date.now()` has thirteen
   * digits), the identifier is exactly r1, the last six characters of ts, r2
   * and the seed's prefix of length min(6, |seed|).
   */
  lemma CreateIdShape(r1: Token, ts: string, r2: Token, seed: string)
    requires |ts| >= 6
    ensures CreateId(r1, ts, r2, seed)
            == r1 + "-" + ts[|ts| - 6..] + "-" + r2 + "-" + seed[..Min(6, |seed|)]
    ensures |CreateId(r1, ts, r2, seed)| == 21 + Min(6, |seed|)
  {
  }

  /** Positional parsing recovers every segment that `createId` joined. */
  lemma ParseCreateId(r1: Token, ts: string, r2: Token, seed: string)
    requires |ts| >= 6
    ensures ParseId(CreateId(r1, ts, r2, seed))
            == Some(IdParts(r1, ts[|ts| - 6..], r2, seed[..Min(6, |seed|)]))
  {
    CreateIdShape(r1, ts, r2, seed);
    var id := CreateId(r1, ts, r2, seed);
    var stamp, prefix := ts[|ts| - 6..], seed[..Min(6, |seed|)];
    assert id == r1 + "-" + stamp + "-" + r2 + "-" + prefix;
    assert id[..6] == r1;
    assert id[7..13] == stamp;
    assert id[14..20] == r2;
    assert id[21..] == prefix;
  }

  /**
   * Whatever `ParseId` accepts is what `createId` builds from the parts it
   * returns, with the six-character stamp as the clock text and the seed
   * prefix as the seed.
   */
  lemma ParseIdJoins(id: string)
    requires ParseId(id).Some?
    ensures var p := ParseId(id).value;
            id == CreateId(p.first, p.stamp, p.second, p.seedPrefix)
  {
    var p := ParseId(id).value;
    assert JsSlice(p.stamp, 0, 6) == p.stamp;
    assert JsSlice(p.seedPrefix, 0, 6) == p.seedPrefix;
  }

  /** Without a seed the last segment is the fallback token: the identifier is random throughout. */
  lemma UnseededIdIsRandom(r1: Token, ts: string, r2: Token, fallback: Token)
    requires |ts| >= 6
    ensures ParseId(CreateId(r1, ts, r2, DefaultSeed(None, fallback)))
            == Some(IdParts(r1, ts[|ts| - 6..], r2, fallback))
  {
    ParseCreateId(r1, ts, r2, fallback);
    assert fallback[..Min(6, |fallback|)] == fallback;
  }
}
