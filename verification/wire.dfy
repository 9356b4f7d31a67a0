/** The decoded entries the book reads: one element of a snapshot's "as"/"bs"
    list or of a diff message's "a"/"b" list, e.g.
    `["5711.80000", "8.13439401", "1557070784.848047"]`, optionally with a
    fourth "r" (republish) marker on diffs. */
module Wire {
  import opened Levels

  /** One element of an entry array: either a JSON string, given together
      with what it parses to at the scale of its column (a price in units of
      10^-5, a volume in units of 10^-8, `None` when the text is not a
      number), or any other JSON value. For the timestamp column only being
      a string matters. */
  datatype Field = Str(scaled: Option<nat>) | NotStr

  /** A list element: an array of fields, or any other JSON value. */
  datatype Entry = Array(fields: seq<Field>) | NotArray

  /** How the snapshot reads an entry (order_book.rs:35-39): element 0 and
      element 1 must exist, be strings and parse; anything else drops the
      entry. The timestamp is not looked at. */
  function SnapshotLevel(e: Entry): (r: Option<Level>)
    ensures r.Some? <==> e.Array? && |e.fields| >= 2 && e.fields[0].Str? && e.fields[0].scaled.Some?
                                                     && e.fields[1].Str? && e.fields[1].scaled.Some?
    ensures r.Some? ==> r.value.price == e.fields[0].scaled.value && r.value.volume == e.fields[1].scaled.value
    ensures r.Some? && ReadDiff(e).Diff? ==> ReadDiff(e) == Diff(r.value.price, r.value.volume)
    ensures e.Array? && |e.fields| >= 3 && r.None? ==> ReadDiff(e).Skip? || ReadDiff(e).price == 0 || ReadDiff(e).volume == 0
  {
    match e
    case NotArray => None
    case Array(f) =>
      if |f| >= 2 && f[0].Str? && f[0].scaled.Some? && f[1].Str? && f[1].scaled.Some? then
        Some(Level(f[0].scaled.value, f[1].scaled.value))
      else None
  }

  /** Outcome of reading one diff entry. */
  datatype DiffRead =
    | Skip                           // not an array of three strings
    | Panic                          // `ask[i]` indexed past the end
    | Diff(price: nat, volume: nat)  // parse failures already read as 0

  /** How the update reads an entry (order_book.rs:69-75): a non-array is
      skipped; otherwise `ask[0]`, `ask[1]`, `ask[2]` are indexed in turn,
      each must be a string, and the first non-string stops the read before
      the next index is taken. Indexing past the end panics. A price or
      volume that does not parse reads as 0. Elements after the third are
      never looked at. */
  function ReadDiff(e: Entry): (r: DiffRead)
    ensures r.Diff? <==> e.Array? && |e.fields| >= 3 && e.fields[0].Str? && e.fields[1].Str? && e.fields[2].Str?
    ensures r.Diff? ==> r.price == e.fields[0].scaled.GetOr(0) && r.volume == e.fields[1].scaled.GetOr(0)
    ensures e.Array? && |e.fields| >= 3 ==> r != Panic
  {
    match e
    case NotArray => Skip
    case Array(f) =>
      if |f| == 0 then Panic
      else if f[0].NotStr? then Skip
      else if |f| == 1 then Panic
      else if f[1].NotStr? then Skip
      else if |f| == 2 then Panic
      else if f[2].NotStr? then Skip
      else Diff(f[0].scaled.GetOr(0), f[1].scaled.GetOr(0))
  }

  /** Entries the update can read without panicking. */
  predicate Readable(es: seq<Entry>) {
    forall i :: 0 <= i < |es| ==> ReadDiff(es[i]) != Panic
  }

  /** An entry panics exactly when it is an array that runs out before
      three elements with no non-string before the end. */
  lemma ReadDiffPanics(e: Entry)
    ensures ReadDiff(e).Panic? <==> e.Array? && |e.fields| < 3 && forall i :: 0 <= i < |e.fields| ==> e.fields[i].Str?
  {
  }

  /** A fourth element, such as the "r" republish marker, does not change
      how an entry reads. */
  lemma ExtraFieldsIgnored(f: seq<Field>, extra: seq<Field>)
    requires |f| >= 3
    ensures ReadDiff(Array(f + extra)) == ReadDiff(Array(f))
  {
    assert (f + extra)[0] == f[0] && (f + extra)[1] == f[1] && (f + extra)[2] == f[2];
  }
}
