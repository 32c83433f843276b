/** Finalized artifacts: per-extract Parquets with their manifests, and what a
    global deduplication pass stages for them. */
module Dataset {
  import opened Wrappers
  import opened CanonicalRows
  import opened Counts
  import opened SortedText
  import opened TextOrder

  /** The stem shared by `data/<stem>.parquet` and `manifests/<stem>.manifest.json`. */
  type Name = string

  datatype Path = DataFile(name: Name) | ManifestFile(name: Name)

  datatype Content = Parquet(rows: seq<Row>) | ManifestText(manifest: Manifest)

  /** A collision-free SHA-256: the digest of a file determines its content. */
  datatype Digest = Sha256(content: Content)

  datatype OutputIdentity = OutputIdentity(name: Name, digest: Digest)

  datatype RunCounts = RunCounts(emitted: nat, included: nat, rejections: map<string, nat>)

  /** `rest` stands for the fields that deduplication carries over unread. */
  datatype Manifest = Manifest(source: string, output: OutputIdentity, counts: RunCounts, rest: string)

  type Files = map<Path, Content>

  const DUPLICATE_REJECTION_REASON := "duplicate_osm_object"

  /** The manifest accounts for every emitted feature. */
  ghost predicate Balanced(counts: RunCounts)
  {
    counts.emitted == counts.included + SumOf(counts.rejections)
  }

  /* ------------------------------------------------------------ listing files */

  function Names(files: Files): set<Name>
  {
    set path | path in files && path.DataFile? :: path.name
  }

  function ManifestNames(files: Files): set<Name>
  {
    set path | path in files && path.ManifestFile? :: path.name
  }

  function Rows(files: Files, name: Name): seq<Row>
  {
    if DataFile(name) in files && files[DataFile(name)].Parquet? then files[DataFile(name)].rows else []
  }

  function Hashes(files: Files): map<Name, Digest>
  {
    map name | name in Names(files) :: Sha256(files[DataFile(name)])
  }

  /* ------------------------------------------------------------------ staging */

  predicate IdentityLess(a: Identity, b: Identity)
  {
    Less(a.osmType, b.osmType) || (a.osmType == b.osmType && a.osmId < b.osmId)
  }

  predicate OnePerIdentity(rows: set<Row>)
  {
    forall a, b | a in rows && b in rows && a.id == b.id :: a == b
  }

  predicate IsFirst(rows: set<Row>, first: Row)
  {
    first in rows && forall row | row in rows :: row == first || IdentityLess(first.id, row.id)
  }

  lemma IdentityLessTotal(a: Identity, b: Identity)
    ensures IdentityLess(a, b) || a == b || IdentityLess(b, a)
    ensures !(IdentityLess(a, b) && IdentityLess(b, a))
  {
    LessTotal(a.osmType, b.osmType);
    LessIrreflexive(a.osmType);
  }

  lemma IdentityLessTransitive(a: Identity, b: Identity, c: Identity)
    requires IdentityLess(a, b) && IdentityLess(b, c)
    ensures IdentityLess(a, c)
  {
    if Less(a.osmType, b.osmType) && Less(b.osmType, c.osmType) {
      LessTransitive(a.osmType, b.osmType, c.osmType);
    }
  }

  lemma {:induction false} FirstRowExists(rows: set<Row>) returns (first: Row)
    requires rows != {} && OnePerIdentity(rows)
    ensures IsFirst(rows, first)
  {
    var some :| some in rows;
    if rows == {some} {
      first := some;
    } else {
      var other := FirstRowExists(rows - {some});
      IdentityLessTotal(some.id, other.id);
      first := if IdentityLess(some.id, other.id) then some else other;
      forall row | row in rows
        ensures row == first || IdentityLess(first.id, row.id)
      {
        if first == some && row != some && row != other {
          IdentityLessTransitive(some.id, other.id, row.id);
        }
      }
    }
  }

  lemma FirstRowIsDefined(rows: set<Row>)
    requires rows != {} && OnePerIdentity(rows)
    ensures exists first :: first in rows && IsFirst(rows, first)
    ensures forall a, b :: IsFirst(rows, a) && IsFirst(rows, b) ==> a == b
  {
    var first := FirstRowExists(rows);
    forall a, b | IsFirst(rows, a) && IsFirst(rows, b)
      ensures a == b
    {
      IdentityLessTotal(a.id, b.id);
    }
  }

  function FirstRow(rows: set<Row>): (first: Row)
    requires rows != {} && OnePerIdentity(rows)
    ensures IsFirst(rows, first)
  {
    FirstRowIsDefined(rows);
    var first :| first in rows && IsFirst(rows, first);
    first
  }

  predicate UniqueIdentities(rows: seq<Row>)
  {
    forall i, j | 0 <= i < j < |rows| :: rows[i].id != rows[j].id
  }

  /** `ORDER BY osm_type, osm_id` over rows with distinct identities. */
  function OrderedRows(rows: set<Row>): seq<Row>
    requires OnePerIdentity(rows)
    decreases |rows|
  {
    if rows == {} then [] else
      var first := FirstRow(rows);
      [first] + OrderedRows(rows - {first})
  }

  /** The ordered rows are the given rows. */
  lemma {:induction false} OrderedRowsAreTheRows(rows: set<Row>)
    requires OnePerIdentity(rows)
    ensures RowsOf(OrderedRows(rows)) == rows && |OrderedRows(rows)| == |rows|
    decreases |rows|
  {
    if rows != {} {
      var first := FirstRow(rows);
      var rest := OrderedRows(rows - {first});
      OrderedRowsAreTheRows(rows - {first});
      assert RowsOf([first] + rest) == {first} + RowsOf(rest);
    }
  }

  lemma FirstPrecedesOthers(rows: set<Row>, row: Row)
    requires OnePerIdentity(rows) && rows != {} && row in rows - {FirstRow(rows)}
    ensures IdentityLess(FirstRow(rows).id, row.id)
  {
  }

  /** They come in increasing identity. */
  lemma {:induction false} OrderedRowsIncrease(rows: set<Row>, i: nat, j: nat)
    requires OnePerIdentity(rows) && i < j < |OrderedRows(rows)|
    ensures IdentityLess(OrderedRows(rows)[i].id, OrderedRows(rows)[j].id)
    decreases |rows|
  {
    var first := FirstRow(rows);
    var others := rows - {first};
    var rest := OrderedRows(others);
    assert OrderedRows(rows) == [first] + rest;
    if i == 0 {
      OrderedRowsAreTheRows(others);
      assert rest[j - 1] in RowsOf(rest);
      FirstPrecedesOthers(rows, rest[j - 1]);
    } else {
      OrderedRowsIncrease(others, i - 1, j - 1);
    }
  }

  /** The ordered rows are the given rows, each once, in increasing identity. */
  lemma OrderedRowsMeaning(rows: set<Row>)
    requires OnePerIdentity(rows)
    ensures var ordered := OrderedRows(rows);
            && RowsOf(ordered) == rows && |ordered| == |rows|
            && (forall i, j :: 0 <= i < j < |ordered| ==>
                  var a, b := ordered[i].id, ordered[j].id;
                  Less(a.osmType, b.osmType) || (a.osmType == b.osmType && a.osmId < b.osmId))
            && UniqueIdentities(ordered)
  {
    OrderedRowsAreTheRows(rows);
    var ordered := OrderedRows(rows);
    forall i, j | 0 <= i < j < |ordered|
      ensures IdentityLess(ordered[i].id, ordered[j].id) && ordered[i].id != ordered[j].id
    {
      OrderedRowsIncrease(rows, i, j);
      IdentityLessTotal(ordered[i].id, ordered[j].id);
      LessIrreflexive(ordered[i].id.osmType);
    }
  }

  /** Every row of every Parquet: `read_parquet([...])`. */
  function AllRowsOf(files: Files): set<Row>
  {
    set path, row | path in files && path.DataFile? && row in Rows(files, path.name) :: row
  }

  /** The `deduplicated` table. */
  function Deduplicated(fp: Fingerprint, files: Files): set<Row>
  {
    Canonical(fp, AllRowsOf(files), true)
  }

  predicate HasManifest(files: Files, name: Name)
  {
    ManifestFile(name) in files && files[ManifestFile(name)].ManifestText?
  }

  predicate AllHaveManifests(files: Files, names: seq<Name>)
  {
    forall name | name in names :: HasManifest(files, name)
  }

  function ManifestOf(files: Files, name: Name): Manifest
    requires HasManifest(files, name)
  {
    files[ManifestFile(name)].manifest
  }

  /** The deduplicated rows that belong to one source. */
  function Selection(fp: Fingerprint, files: Files, source: string): set<Row>
  {
    set row | row in Deduplicated(fp, files) && row.source == source
  }

  datatype StagedFile = StagedFile(name: Name, rows: seq<Row>, manifest: Manifest, dropped: nat)

  lemma SelectionIsOnePerIdentity(fp: Fingerprint, files: Files, source: string)
    requires Injective(fp)
    ensures OnePerIdentity(Selection(fp, files, source))
  {
    forall a, b | a in Selection(fp, files, source) && b in Selection(fp, files, source) && a.id == b.id
      ensures a == b
    {
      WinnersAreUnique(fp, AllRowsOf(files), true, a, b);
    }
  }

  /** The rewritten pair of one file, or nothing when no row has to go. */
  function StageSource(fp: Fingerprint, files: Files, name: Name): seq<StagedFile>
    requires Injective(fp) && HasManifest(files, name)
  {
    var manifest := ManifestOf(files, name);
    var selection := Selection(fp, files, manifest.source);
    var dropped := |Rows(files, name)| - |selection|;
    if dropped <= 0 then []
    else
      SelectionIsOnePerIdentity(fp, files, manifest.source);
      var rows := OrderedRows(selection);
      [StagedFile(
        name, rows,
        manifest.(
          output := OutputIdentity(name, Sha256(Parquet(rows))),
          counts := manifest.counts.(
            included := |rows|,
            rejections := Raised(manifest.counts.rejections, DUPLICATE_REJECTION_REASON, dropped))),
        dropped)]
  }

  function StageChanges(fp: Fingerprint, files: Files, names: seq<Name>): seq<StagedFile>
    requires Injective(fp) && AllHaveManifests(files, names)
  {
    if names == [] then [] else StageSource(fp, files, names[0]) + StageChanges(fp, files, names[1..])
  }

  function CurrentRows(files: Files, names: seq<Name>): nat
  {
    if names == [] then 0 else |Rows(files, names[0])| + CurrentRows(files, names[1..])
  }

  /** The rows that stay, counted file by file as the staging loop does. */
  function OutputRows(fp: Fingerprint, files: Files, names: seq<Name>): nat
    requires AllHaveManifests(files, names)
  {
    if names == [] then 0
    else |Selection(fp, files, ManifestOf(files, names[0]).source)| + OutputRows(fp, files, names[1..])
  }

  /** The staged files by their path, as they lie in the staging directory. */
  function NewFiles(staged: seq<StagedFile>): Files
  {
    if staged == [] then map[]
    else
      map[DataFile(staged[0].name) := Parquet(staged[0].rows),
          ManifestFile(staged[0].name) := ManifestText(staged[0].manifest)]
      + NewFiles(staged[1..])
  }

  /* --------------------------------------------------------------- validation */

  /** One finalized pair passes both validations that run before a pass starts. */
  predicate ValidPair(files: Files, name: Name)
  {
    && DataFile(name) in files && files[DataFile(name)].Parquet?
    && HasManifest(files, name)
    && var rows := Rows(files, name);
    && ManifestOf(files, name).output == OutputIdentity(name, Sha256(files[DataFile(name)]))
    && ManifestOf(files, name).counts.included == |rows|
    && UniqueIdentities(rows)
    && (forall i, j | 0 <= i < |rows| && 0 <= j < |rows| :: rows[i].source == rows[j].source)
    && forall row | row in rows :: Eligible(row, true)
  }

  predicate Validated(files: Files)
  {
    && Names(files) == ManifestNames(files)
    && forall name | name in Names(files) :: ValidPair(files, name)
  }

  predicate KnownSources(fp: Fingerprint, files: Files)
    requires Validated(files)
  {
    forall row | row in Deduplicated(fp, files) ::
      exists name | name in Names(files) :: ManifestOf(files, name).source == row.source
  }
}
