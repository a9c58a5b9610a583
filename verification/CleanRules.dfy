/** The decisions of a transaction-aware clean, stated over whole records:
    which copies of a key are superseded, what a rewrite does with one record,
    and what a strip removes. */
module CleanRules {
  import opened Bytes
  import opened LogModel

  /** A clean's policy with its ceiling already resolved. A caller that supplies
      no abort oracle is one whose `aborted` is false everywhere. */
  datatype CleanSpec = CleanSpec(
    ceiling: int, stripBelow: int, stripHeaders: seq<string>,
    aborted: int -> bool, gcBelow: int, retention: int, stripOnly: bool)
  {
    predicate StripActive() { stripBelow > 0 && stripHeaders != [] }
  }

  // ---- which copies of a key participate ----

  predicate Candidate(spec: CleanSpec, r: Record) {
    !r.control && r.key.Some? && r.offset <= spec.ceiling && !spec.aborted(r.offset)
  }

  ghost predicate Superseded(L: seq<Segment>, spec: CleanSpec, r: Record) {
    && Candidate(spec, r)
    && exists q :: Holds(L, q) && Candidate(spec, q) && q.key == r.key && r.offset < q.offset
  }

  predicate Expired(spec: CleanSpec, now: int, r: Record) {
    && spec.retention > 0 && r.tombstone && r.offset < spec.gcBelow
    && 0 < r.ts < now - spec.retention
  }

  /** A key's newest decided copy, when it is a tombstone old enough to go. */
  ghost predicate Collectable(L: seq<Segment>, spec: CleanSpec, now: int, r: Record) {
    Candidate(spec, r) && !Superseded(L, spec, r) && Expired(spec, now, r)
  }

  /** What the key merge marks for removal. */
  ghost predicate Dropped(L: seq<Segment>, spec: CleanSpec, now: int, r: Record) {
    (Superseded(L, spec, r) && r.offset < spec.ceiling) || Collectable(L, spec, now, r)
  }

  // ---- what a rewrite does with one record ----

  datatype Disposition = Retain | Remove | Strip

  function Classify(spec: CleanSpec, dropped: bool, r: Record): Disposition {
    if r.offset >= spec.ceiling then Retain
    else if r.control then
      if r.offset < spec.stripBelow && spec.stripHeaders != [] then Remove else Retain
    else if spec.aborted(r.offset) then Remove
    else if r.key.Some? && dropped then Remove
    else if r.offset < spec.stripBelow && spec.stripHeaders != [] then Strip
    else Retain
  }

  predicate Carries(r: Record, headers: seq<string>) {
    exists h :: h in headers && h in r.headers
  }

  /** Stripping a record that fails its checksum leaves it as it is. */
  function StripRecord(r: Record, headers: seq<string>): (s: Record)
    ensures s.(headers := r.headers) == r
    ensures s.headers.Keys <= r.headers.Keys && forall h :: h in s.headers ==> s.headers[h] == r.headers[h]
    ensures r.sound ==> !Carries(s, headers)
    ensures s == r <==> !Strippable(r, headers)
  {
    if r.sound then
      var s := r.(headers := r.headers - (set h | h in headers));
      assert Carries(r, headers) ==> s.headers != r.headers by {
        if Carries(r, headers) {
          var h :| h in headers && h in r.headers;
          assert h !in s.headers;
        }
      }
      assert !Carries(r, headers) ==> s.headers == r.headers;
      s
    else r
  }

  /** Stripping would change this record. */
  predicate Strippable(r: Record, headers: seq<string>) {
    r.sound && Carries(r, headers)
  }

  /** What is left of a record, or nothing. */
  function Outcome(spec: CleanSpec, dropped: bool, r: Record): (o: Option<Record>)
    ensures o.Some? ==> o.value.(headers := r.headers) == r && o.value.headers.Keys <= r.headers.Keys
  {
    match Classify(spec, dropped, r)
    case Remove => None
    case Strip => Some(StripRecord(r, spec.stripHeaders))
    case Retain => Some(r)
  }

  /** Two records that differ at most by stripped headers. */
  predicate SameRecord(r: Record, s: Record) {
    s.(headers := r.headers) == r && s.headers.Keys <= r.headers.Keys
  }
}
