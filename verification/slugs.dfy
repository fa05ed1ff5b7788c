/** The bounded-retry slug generator shared by the scripts (`_generate_slug`):
    append `_` and the first four characters of a fresh `uuid4()` to a base
    until the candidate is not in the lookup set, giving up after the
    initial draw and `attempts` retries have all collided. */
module Slugs {
  import opened Wrappers
  import opened Strings
  import opened Table

  const Attempts: nat := 100
  const SuffixLength: nat := 4

  /** A generated slug and the index of the next unused `uuid4()` draw. */
  datatype Drawn = Drawn(slug: string, cursor: nat)

  /** `str(uuid4())[:suffix_length]` for draw number `i`. */
  function Suffix(uuid: nat -> string, i: nat): string {
    Take(uuid(i), SuffixLength)
  }

  /** `f"{base}_{suffix}"`. */
  function Compose(base: string, suffix: string): string {
    base + "_" + suffix
  }

  /** The candidate built from draw number `cursor + k`. */
  function Candidate(base: string, uuid: nat -> string, cursor: nat, k: nat): string {
    Compose(base, Suffix(uuid, cursor + k))
  }

  /** The loop of `_generate_slug` entered with `count` collisions behind it. */
  function FirstFree(base: string, lookup: set<string>, uuid: nat -> string, cursor: nat, count: nat): (r: Option<Drawn>)
    requires count <= Attempts
    ensures r.Some? ==>
      && count < r.value.cursor - cursor <= Attempts + 1
      && r.value.slug == Candidate(base, uuid, cursor, r.value.cursor - cursor - 1)
      && r.value.slug !in lookup
      && forall k :: count <= k < r.value.cursor - cursor - 1 ==> Candidate(base, uuid, cursor, k) in lookup
    ensures r.None? <==> forall k :: count <= k <= Attempts ==> Candidate(base, uuid, cursor, k) in lookup
    decreases Attempts - count
  {
    var c := Candidate(base, uuid, cursor, count);
    if c !in lookup then Some(Drawn(c, cursor + count + 1))
    else if count + 1 > Attempts then None
    else FirstFree(base, lookup, uuid, cursor, count + 1)
  }

  /** `_generate_slug(base, lookup)` starting at draw `cursor`: the first
      of the candidates 0..Attempts that is not in `lookup`, or `None` where
      the script raises `RuntimeError`. */
  function GenerateSlug(base: string, lookup: set<string>, uuid: nat -> string, cursor: nat): (r: Option<Drawn>)
    ensures r.Some? ==>
      && var k := r.value.cursor - cursor - 1;
      && 0 <= k <= Attempts
      && r.value.slug == base + "_" + Take(uuid(cursor + k), SuffixLength)
      && r.value.slug !in lookup
      && forall j :: 0 <= j < k ==> Candidate(base, uuid, cursor, j) in lookup
    ensures r.None? <==> forall k :: 0 <= k <= Attempts ==> Candidate(base, uuid, cursor, k) in lookup
  {
    FirstFree(base, lookup, uuid, cursor, 0)
  }

  /** A slug handed out by `_generate_slug`, the lookup set afterwards and
      the next unused draw. */
  datatype Claimed = Claimed(slug: string, lookup: set<string>, cursor: nat)

  /** One call of `_generate_slug` inside a run. main.py's version leaves
      the lookup set as it was; UNFCCC/main.py's adds the new slug to it
      (`register`). Exhaustion is the `RuntimeError` the scripts raise. */
  function NextSlug(base: string, lookup: set<string>, uuid: nat -> string, cursor: nat, register: bool): (r: Result<Claimed, Failure>)
    ensures r.Success? ==>
      && r.value.slug !in lookup && r.value.slug != ""
      && cursor < r.value.cursor
      && (exists k :: 0 <= k <= Attempts && r.value.slug == Candidate(base, uuid, cursor, k))
      && r.value.lookup == (if register then lookup + {r.value.slug} else lookup)
    ensures r.Failure? <==> forall k :: 0 <= k <= Attempts ==> Candidate(base, uuid, cursor, k) in lookup
    ensures r.Failure? ==> r.error == SlugExhausted(base)
  {
    match GenerateSlug(base, lookup, uuid, cursor)
    case None => Failure(SlugExhausted(base))
    case Some(d) => Success(Claimed(d.slug, if register then lookup + {d.slug} else lookup, d.cursor))
  }

  /** A slug the row already has, or a new one from `_generate_slug`. */
  function SlugFor(given: string, base: string, lookup: set<string>, env: Env, cursor: nat, register: bool): (r: Result<Claimed, Failure>)
    ensures given != "" ==> r == Success(Claimed(given, lookup, cursor))
    ensures given == "" ==> r == NextSlug(base, lookup, env.uuid, cursor, register)
    ensures r.Success? ==> r.value.slug != ""
  {
    if given != "" then Success(Claimed(given, lookup, cursor)) else NextSlug(base, lookup, env.uuid, cursor, register)
  }

  /** A drawn slug is a candidate of its base and not in the lookup; with
      `register` the lookup gains it. */
  lemma DrawnSlug(base: string, lookup: set<string>, env: Env, cursor: nat, register: bool)
    requires SlugFor("", base, lookup, env, cursor, register).Success?
    ensures var c := SlugFor("", base, lookup, env, cursor, register).value;
      && c.slug !in lookup
      && (exists i :: c.slug == Compose(base, Suffix(env.uuid, i)))
      && c.lookup == if register then lookup + {c.slug} else lookup
  {
    var c := SlugFor("", base, lookup, env, cursor, register).value;
    var k :| 0 <= k <= Attempts && c.slug == Candidate(base, env.uuid, cursor, k);
    assert c.slug == Compose(base, Suffix(env.uuid, cursor + k));
  }

  /** The loop as the script writes it: draw a suffix, and while the
      candidate collides count the collision, draw again, and give up once
      the count exceeds the number of attempts. */
  method GenerateSlugLoop(base: string, lookup: set<string>, uuid: nat -> string, cursor: nat) returns (r: Option<Drawn>)
    ensures r == GenerateSlug(base, lookup, uuid, cursor)
  {
    var next := cursor;
    var suffix := Suffix(uuid, next);
    next := next + 1;
    var count := 0;
    var slug := Compose(base, suffix);
    while slug in lookup
      invariant count <= Attempts
      invariant next == cursor + count + 1
      invariant slug == Candidate(base, uuid, cursor, count)
      invariant forall j :: 0 <= j < count ==> Candidate(base, uuid, cursor, j) in lookup
      decreases Attempts - count
    {
      count := count + 1;
      suffix := Suffix(uuid, next);
      next := next + 1;
      if count > Attempts {
        AllTaken(base, lookup, uuid, cursor);
        return None;
      }
      slug := Compose(base, suffix);
    }
    FirstFreeAt(base, lookup, uuid, cursor, count);
    return Some(Drawn(slug, next));
  }

  /** The exhaustion bound: when every candidate the loop may try is taken,
      the generator fails instead of looping or returning a taken slug. */
  lemma AllTaken(base: string, lookup: set<string>, uuid: nat -> string, cursor: nat)
    requires forall j :: 0 <= j <= Attempts ==> Candidate(base, uuid, cursor, j) in lookup
    ensures GenerateSlug(base, lookup, uuid, cursor) == None
  {}

  /** The generator returns the first free candidate and the draw after it. */
  lemma FirstFreeAt(base: string, lookup: set<string>, uuid: nat -> string, cursor: nat, count: nat)
    requires count <= Attempts
    requires forall j :: 0 <= j < count ==> Candidate(base, uuid, cursor, j) in lookup
    requires Candidate(base, uuid, cursor, count) !in lookup
    ensures GenerateSlug(base, lookup, uuid, cursor) == Some(Drawn(Candidate(base, uuid, cursor, count), cursor + count + 1))
  {
    FirstFreeFrom(base, lookup, uuid, cursor, 0, count);
  }

  /** Entered with `from` collisions behind it, the loop skips the taken
      candidates up to `count` and stops at the free one. */
  lemma {:induction false} FirstFreeFrom(base: string, lookup: set<string>, uuid: nat -> string, cursor: nat, from: nat, count: nat)
    requires from <= count <= Attempts
    requires forall j :: from <= j < count ==> Candidate(base, uuid, cursor, j) in lookup
    requires Candidate(base, uuid, cursor, count) !in lookup
    ensures FirstFree(base, lookup, uuid, cursor, from) == Some(Drawn(Candidate(base, uuid, cursor, count), cursor + count + 1))
    decreases count - from
  {
    if from < count {
      assert Candidate(base, uuid, cursor, from) in lookup;
      FirstFreeFrom(base, lookup, uuid, cursor, from + 1, count);
    }
  }
}
