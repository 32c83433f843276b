/** What a deduplication pass keeps of datasets whose files share a source, or hold rows of
    another source than their manifest names.  The validations before a pass let both through.

    Main result: every canonical row stands exactly once in the promoted dataset, and no other
    row does, under a condition on the files of each source that can be read off before the pass.
 */
module SharedSources {
  import opened CanonicalRows
  import opened Dataset
  import opened Staging

  /** The pass does not touch this file. */
  predicate LeftAlone(fp: Fingerprint, files: Files, name: Name)
    requires HasManifest(files, name)
  {
    |Rows(files, name)| <= |Selection(fp, files, ManifestOf(files, name).source)|
  }

  /** The file has the row after the pass: because it does and is left alone, or because it is
      rewritten with the canonical rows of the row's source. */
  predicate Keeps(fp: Fingerprint, files: Files, name: Name, row: Row)
    requires HasManifest(files, name)
  {
    if LeftAlone(fp, files, name) then row in Rows(files, name)
    else row.source == ManifestOf(files, name).source && row in Deduplicated(fp, files)
  }

  lemma RowAfterPromotion(fp: Fingerprint, files: Files, name: Name, row: Row)
    requires Injective(fp) && Validated(files) && name in Names(files)
    ensures row in Rows(Promoted(fp, files), name) <==> Keeps(fp, files, name, row)
  {
    PromotedAt(fp, files, name);
    assert ValidPair(files, name);
    if !LeftAlone(fp, files, name) {
      StagedRows(fp, files, name);
      assert row in RowsOf(StageSource(fp, files, name)[0].rows) <==> row in StageSource(fp, files, name)[0].rows;
    }
  }

  lemma RowsAfterPromotion(fp: Fingerprint, files: Files, row: Row)
    requires Injective(fp) && Validated(files)
    ensures row in AllRowsOf(Promoted(fp, files))
       <==> exists name :: name in Names(files) && row in Rows(Promoted(fp, files), name)
  {
    var after := Promoted(fp, files);
    PromotedKeepsPaths(fp, files);
    if row in AllRowsOf(after) {
      var path :| path in after && path.DataFile? && row in Rows(after, path.name);
      assert path.name in Names(after);
    }
    if name :| name in Names(files) && row in Rows(after, name) {
      assert DataFile(name) in after;
    }
  }

  /** Some file has the row after the pass. */
  ghost predicate IsKept(fp: Fingerprint, files: Files, row: Row)
    requires Validated(files)
  {
    exists name :: name in Names(files) && Keeps(fp, files, name, row)
  }

  lemma PromotedRowsAreKept(fp: Fingerprint, files: Files, row: Row)
    requires Injective(fp) && Validated(files)
    ensures row in AllRowsOf(Promoted(fp, files)) <==> IsKept(fp, files, row)
  {
    RowsAfterPromotion(fp, files, row);
    forall name | name in Names(files)
      ensures row in Rows(Promoted(fp, files), name) <==> Keeps(fp, files, name, row)
    {
      RowAfterPromotion(fp, files, name, row);
    }
  }

  /** Where the row stands: file and position. */
  function Places(files: Files, row: Row): set<(Name, nat)>
  {
    set name, i: nat | name in Names(files) && i < |Rows(files, name)| && Rows(files, name)[i] == row :: (name, i)
  }

  /** Every canonical row of `before` stands exactly once in all of `after`, and no other row stands there. */
  ghost predicate EachCanonicalRowOnce(fp: Fingerprint, before: Files, after: Files)
  {
    forall row: Row :: |Places(after, row)| == if row in Deduplicated(fp, before) then 1 else 0
  }

  /** Exactly one file keeps the row. */
  ghost predicate KeptOnce(fp: Fingerprint, files: Files, row: Row)
    requires Validated(files)
  {
    && IsKept(fp, files, row)
    && forall a, b | a in Names(files) && b in Names(files) && Keeps(fp, files, a, row) && Keeps(fp, files, b, row) ::
         a == b
  }

  /** This file has the row and no other does. */
  ghost predicate HasAlone(files: Files, name: Name, row: Row)
  {
    && name in Names(files) && row in Rows(files, name)
    && forall other | other in Names(files) && row in Rows(files, other) :: other == name
  }

  lemma NoPlace(files: Files, row: Row)
    ensures |Places(files, row)| == 0 <==> forall name :: name in Names(files) ==> row !in Rows(files, name)
  {
    if name :| name in Names(files) && row in Rows(files, name) {
      var i: nat :| i < |Rows(files, name)| && Rows(files, name)[i] == row;
      assert (name, i) in Places(files, row);
    }
  }

  lemma OnePlace(files: Files, row: Row)
    requires Validated(files)
    ensures |Places(files, row)| == 1 <==> exists name :: HasAlone(files, name, row)
  {
    var places := Places(files, row);
    if |places| == 1 {
      var place :| place in places;
      Singleton(places, place);
      forall other | other in Names(files) && row in Rows(files, other)
        ensures other == place.0
      {
        var i: nat :| i < |Rows(files, other)| && Rows(files, other)[i] == row;
        assert (other, i) in places;
      }
      assert HasAlone(files, place.0, row);
    }
    if name :| HasAlone(files, name, row) {
      var i: nat :| i < |Rows(files, name)| && Rows(files, name)[i] == row;
      assert ValidPair(files, name);
      assert places == {(name, i)};
    }
  }

  lemma Singleton<T>(s: set<T>, x: T)
    requires |s| == 1 && x in s
    ensures s == {x}
  {
    assert |s - {x}| == 0;
  }

  lemma PlacesAfterPromotion(fp: Fingerprint, files: Files, row: Row)
    requires Injective(fp) && Validated(files)
    ensures |Places(Promoted(fp, files), row)| == 0 <==> !IsKept(fp, files, row)
    ensures |Places(Promoted(fp, files), row)| == 1 <==> KeptOnce(fp, files, row)
  {
    var after := Promoted(fp, files);
    PromotedKeepsPaths(fp, files);
    PromotedIsValidated(fp, files);
    NoPlace(after, row);
    OnePlace(after, row);
    forall name | name in Names(files)
      ensures row in Rows(after, name) <==> Keeps(fp, files, name, row)
    {
      RowAfterPromotion(fp, files, name, row);
    }
    if KeptOnce(fp, files, row) {
      var name :| name in Names(files) && Keeps(fp, files, name, row);
      assert HasAlone(after, name, row);
    }
  }

  /** The canonical rows are kept by one file each, and no other row is kept. */
  ghost predicate KeepsRight(fp: Fingerprint, files: Files, row: Row)
    requires Validated(files)
  {
    if row in Deduplicated(fp, files) then KeptOnce(fp, files, row) else !IsKept(fp, files, row)
  }

  lemma OnceIsKeptRight(fp: Fingerprint, files: Files)
    requires Injective(fp) && Validated(files)
    ensures EachCanonicalRowOnce(fp, files, Promoted(fp, files)) <==> forall row: Row :: KeepsRight(fp, files, row)
  {
    forall row: Row
      ensures |Places(Promoted(fp, files), row)| == (if row in Deduplicated(fp, files) then 1 else 0)
         <==> KeepsRight(fp, files, row)
    {
      PlacesAfterPromotion(fp, files, row);
    }
  }

  /* -------------------------------------------------------- the exact condition */

  /** The file is rewritten with the canonical rows of the source. */
  predicate Rewritten(fp: Fingerprint, files: Files, name: Name, source: string)
    requires Validated(files)
  {
    name in Names(files) && !LeftAlone(fp, files, name) && ManifestOf(files, name).source == source
  }

  /** The file has the row, which is of the source, and is left alone. */
  predicate Stays(fp: Fingerprint, files: Files, name: Name, row: Row, source: string)
    requires Validated(files)
  {
    name in Names(files) && LeftAlone(fp, files, name) && row in Rows(files, name) && row.source == source
  }

  ghost predicate NothingStays(fp: Fingerprint, files: Files, source: string)
    requires Validated(files)
  {
    forall name, row :: !Stays(fp, files, name, row, source)
  }

  ghost predicate OneRewritten(fp: Fingerprint, files: Files, source: string)
    requires Validated(files)
  {
    forall a, b :: Rewritten(fp, files, a, source) && Rewritten(fp, files, b, source) ==> a == b
  }

  /** The rows of the source that stay are the canonical ones, and no row stays twice. */
  ghost predicate EachStaysOnce(fp: Fingerprint, files: Files, source: string)
    requires Validated(files)
  {
    && (forall name, row :: Stays(fp, files, name, row, source) ==> row in Deduplicated(fp, files))
    && (forall row | row in Selection(fp, files, source) :: exists name :: Stays(fp, files, name, row, source))
    && (forall a, b, row :: Stays(fp, files, a, row, source) && Stays(fp, files, b, row, source) ==> a == b)
  }

  /** What it takes for one source: no row of it stays in a file left alone where one file is
      rewritten or no row is canonical, and otherwise the files left alone are already right. */
  ghost predicate SourceIsRight(fp: Fingerprint, files: Files, source: string)
    requires Validated(files)
  {
    if Selection(fp, files, source) == {} then NothingStays(fp, files, source)
    else if exists name :: Rewritten(fp, files, name, source) then
      OneRewritten(fp, files, source) && NothingStays(fp, files, source)
    else EachStaysOnce(fp, files, source)
  }

  lemma KeepsIsStaysOrRewritten(fp: Fingerprint, files: Files, name: Name, row: Row)
    requires Validated(files) && name in Names(files)
    ensures Keeps(fp, files, name, row)
       <==> (Stays(fp, files, name, row, row.source)
             || (Rewritten(fp, files, name, row.source) && row in Deduplicated(fp, files)))
  {
  }

  /** On every dataset that passes the validations, whatever its sources: each canonical row stands
      once after the pass, and no other row does, exactly when every source is right. */
  lemma EachCanonicalRowOnceExactlyWhen(fp: Fingerprint, files: Files)
    requires Injective(fp) && Validated(files)
    ensures EachCanonicalRowOnce(fp, files, Promoted(fp, files))
       <==> forall source: string :: SourceIsRight(fp, files, source)
  {
    OnceIsKeptRight(fp, files);
    if forall row: Row :: KeepsRight(fp, files, row) {
      forall source: string
        ensures SourceIsRight(fp, files, source)
      {
        KeptRowsMakeSourceRight(fp, files, source);
      }
    }
    if forall source: string :: SourceIsRight(fp, files, source) {
      forall row: Row
        ensures KeepsRight(fp, files, row)
      {
        RightSourceKeepsRow(fp, files, row);
      }
    }
  }

  lemma RightSourceKeepsRow(fp: Fingerprint, files: Files, row: Row)
    requires Validated(files) && SourceIsRight(fp, files, row.source)
    ensures KeepsRight(fp, files, row)
  {
    assert row in Deduplicated(fp, files) <==> row in Selection(fp, files, row.source);
    if row !in Deduplicated(fp, files) {
      RightSourceDropsRow(fp, files, row);
    } else if name :| Rewritten(fp, files, name, row.source) {
      RewrittenKeepsRow(fp, files, name, row);
    } else {
      var name :| Stays(fp, files, name, row, row.source);
      LeftAloneKeepsRow(fp, files, name, row);
    }
  }

  lemma RightSourceDropsRow(fp: Fingerprint, files: Files, row: Row)
    requires Validated(files) && SourceIsRight(fp, files, row.source) && row !in Deduplicated(fp, files)
    ensures !IsKept(fp, files, row)
  {
    forall name | name in Names(files)
      ensures !Keeps(fp, files, name, row)
    {
      KeepsIsStaysOrRewritten(fp, files, name, row);
    }
  }

  lemma RewrittenKeepsRow(fp: Fingerprint, files: Files, rewritten: Name, row: Row)
    requires Validated(files) && row in Deduplicated(fp, files) && Rewritten(fp, files, rewritten, row.source)
    requires OneRewritten(fp, files, row.source) && NothingStays(fp, files, row.source)
    ensures KeptOnce(fp, files, row)
  {
    forall name | name in Names(files)
      ensures Keeps(fp, files, name, row) <==> name == rewritten
    {
      KeepsIsStaysOrRewritten(fp, files, name, row);
    }
  }

  lemma LeftAloneKeepsRow(fp: Fingerprint, files: Files, keeper: Name, row: Row)
    requires Validated(files) && Stays(fp, files, keeper, row, row.source)
    requires EachStaysOnce(fp, files, row.source)
    requires forall name :: !Rewritten(fp, files, name, row.source)
    ensures KeptOnce(fp, files, row)
  {
    forall name | name in Names(files)
      ensures Keeps(fp, files, name, row) <==> name == keeper
    {
      KeepsIsStaysOrRewritten(fp, files, name, row);
    }
  }

  lemma KeptRowsMakeSourceRight(fp: Fingerprint, files: Files, source: string)
    requires Validated(files) && forall row: Row :: KeepsRight(fp, files, row)
    ensures SourceIsRight(fp, files, source)
  {
    forall name, row | Stays(fp, files, name, row, source)
      ensures row in Selection(fp, files, source) && Keeps(fp, files, name, row)
    {
      assert KeepsRight(fp, files, row);
    }
    forall row | row in Selection(fp, files, source)
      ensures KeptOnce(fp, files, row)
    {
      assert KeepsRight(fp, files, row);
    }
    if row :| row in Selection(fp, files, source) {
      if rewritten :| Rewritten(fp, files, rewritten, source) {
        RewrittenStandsAlone(fp, files, source, rewritten, row);
      } else {
        forall row | row in Selection(fp, files, source)
          ensures exists name :: Stays(fp, files, name, row, source)
        {
          var name :| name in Names(files) && Keeps(fp, files, name, row);
          KeepsIsStaysOrRewritten(fp, files, name, row);
        }
      }
    }
  }

  /** When kept rows are kept once, a file rewritten for a source with canonical rows is the only
      file that keeps any of them. */
  lemma RewrittenStandsAlone(fp: Fingerprint, files: Files, source: string, rewritten: Name, row: Row)
    requires Validated(files) && Rewritten(fp, files, rewritten, source) && row in Selection(fp, files, source)
    requires forall row | row in Selection(fp, files, source) :: KeptOnce(fp, files, row)
    requires forall name, row | Stays(fp, files, name, row, source) :: row in Selection(fp, files, source)
    ensures OneRewritten(fp, files, source) && NothingStays(fp, files, source)
  {
    forall name | Rewritten(fp, files, name, source)
      ensures name == rewritten
    {
      OnlyTheRewrittenKeeps(fp, files, rewritten, name, row);
    }
    forall name, other | Stays(fp, files, name, other, source)
      ensures name == rewritten
    {
      OnlyTheRewrittenKeeps(fp, files, rewritten, name, other);
    }
  }

  lemma OnlyTheRewrittenKeeps(fp: Fingerprint, files: Files, rewritten: Name, name: Name, row: Row)
    requires Validated(files) && Rewritten(fp, files, rewritten, row.source) && row in Deduplicated(fp, files)
    requires name in Names(files) && Keeps(fp, files, name, row) && KeptOnce(fp, files, row)
    ensures name == rewritten
  {
    assert Keeps(fp, files, rewritten, row);
  }

  /* ------------------------------------------- rows that match their manifests */

  /** The file holds rows, and its manifest names the source. */
  predicate FileOf(files: Files, name: Name, source: string)
    requires Validated(files)
  {
    name in Names(files) && Rows(files, name) != [] && ManifestOf(files, name).source == source
  }

  ghost predicate AtMostOneFile(files: Files, source: string)
    requires Validated(files)
  {
    forall a, b :: FileOf(files, a, source) && FileOf(files, b, source) ==> a == b
  }

  /** Every row of the files of the source is canonical, and none stands in two of them. */
  ghost predicate AlreadyDeduplicated(fp: Fingerprint, files: Files, source: string)
    requires Validated(files)
  {
    && (forall name, row | FileOf(files, name, source) && row in Rows(files, name) :: row in Deduplicated(fp, files))
    && (forall a, b, row | FileOf(files, a, source) && FileOf(files, b, source) ::
          row in Rows(files, a) && row in Rows(files, b) ==> a == b)
  }

  /** A source that several files share must have lost all its rows to others, or be deduplicated already. */
  ghost predicate SharesSafely(fp: Fingerprint, files: Files, source: string)
    requires Validated(files)
  {
    || AtMostOneFile(files, source)
    || Selection(fp, files, source) == {}
    || AlreadyDeduplicated(fp, files, source)
  }

  /** Where rows match their manifests, each canonical row stands once after the pass, and no other
      row does, if and only if every source is shared safely. */
  lemma OwnSourcesAreRightExactlyWhen(fp: Fingerprint, files: Files)
    requires Injective(fp) && Validated(files) && OwnSources(files)
    ensures EachCanonicalRowOnce(fp, files, Promoted(fp, files))
       <==> forall source: string :: SharesSafely(fp, files, source)
  {
    EachCanonicalRowOnceExactlyWhen(fp, files);
    forall source: string
      ensures SourceIsRight(fp, files, source) <==> SharesSafely(fp, files, source)
    {
      if SourceIsRight(fp, files, source) {
        RightIsShared(fp, files, source);
      }
      if SharesSafely(fp, files, source) {
        SharedIsRight(fp, files, source);
      }
    }
  }

  lemma RightIsShared(fp: Fingerprint, files: Files, source: string)
    requires Validated(files) && OwnSources(files) && SourceIsRight(fp, files, source)
    ensures SharesSafely(fp, files, source)
  {
    if a, b :| FileOf(files, a, source) && FileOf(files, b, source) && a != b {
      FileOfIsRewrittenOrStays(fp, files, a, source);
      FileOfIsRewrittenOrStays(fp, files, b, source);
      if Selection(fp, files, source) != {} {
        forall name | FileOf(files, name, source)
          ensures !Rewritten(fp, files, name, source)
        {
        }
        forall name, row | FileOf(files, name, source) && row in Rows(files, name)
          ensures Stays(fp, files, name, row, source)
        {
        }
      }
    }
  }

  lemma FileOfIsRewrittenOrStays(fp: Fingerprint, files: Files, name: Name, source: string)
    requires Validated(files) && OwnSources(files) && FileOf(files, name, source)
    ensures Rewritten(fp, files, name, source) || Stays(fp, files, name, Rows(files, name)[0], source)
  {
  }

  lemma SharedIsRight(fp: Fingerprint, files: Files, source: string)
    requires Validated(files) && OwnSources(files) && SharesSafely(fp, files, source)
    ensures SourceIsRight(fp, files, source)
  {
    if Selection(fp, files, source) == {} {
      assert NothingStays(fp, files, source);
    } else if AlreadyDeduplicated(fp, files, source) {
      DeduplicatedIsRight(fp, files, source);
    } else {
      AloneIsRight(fp, files, source);
    }
  }

  /** A canonical row lies in a file of its source. */
  lemma HomeOf(fp: Fingerprint, files: Files, row: Row) returns (name: Name)
    requires Validated(files) && OwnSources(files) && row in Deduplicated(fp, files)
    ensures FileOf(files, name, row.source) && row in Rows(files, name)
  {
    var path :| path in files && path.DataFile? && row in Rows(files, path.name);
    name := path.name;
    assert name in Names(files);
  }

  lemma DeduplicatedIsRight(fp: Fingerprint, files: Files, source: string)
    requires Validated(files) && OwnSources(files) && AlreadyDeduplicated(fp, files, source)
    requires Selection(fp, files, source) != {}
    ensures SourceIsRight(fp, files, source)
  {
    forall name | FileOf(files, name, source)
      ensures LeftAlone(fp, files, name)
    {
      assert ValidPair(files, name);
      UniqueRowsCount(Rows(files, name));
      SubsetIsSmaller(RowsOf(Rows(files, name)), Selection(fp, files, source));
    }
    forall row | row in Selection(fp, files, source)
      ensures exists name :: Stays(fp, files, name, row, source)
    {
      var name := HomeOf(fp, files, row);
      assert Stays(fp, files, name, row, source);
    }
  }

  lemma AloneIsRight(fp: Fingerprint, files: Files, source: string)
    requires Validated(files) && OwnSources(files) && AtMostOneFile(files, source)
    requires Selection(fp, files, source) != {}
    ensures SourceIsRight(fp, files, source)
  {
    var row :| row in Selection(fp, files, source);
    var home := HomeOf(fp, files, row);
    forall row | row in Selection(fp, files, source)
      ensures row in Rows(files, home)
    {
      var name := HomeOf(fp, files, row);
    }
    if LeftAlone(fp, files, home) {
      FullFileIsRight(fp, files, home, source);
    } else {
      assert Rewritten(fp, files, home, source);
      OnlyFileStays(fp, files, home, source);
    }
  }

  lemma OnlyFileStays(fp: Fingerprint, files: Files, home: Name, source: string)
    requires Validated(files) && OwnSources(files) && AtMostOneFile(files, source) && FileOf(files, home, source)
    requires Selection(fp, files, source) != {}
    ensures forall name :: Rewritten(fp, files, name, source) ==> name == home
    ensures forall name, row :: Stays(fp, files, name, row, source) ==> name == home
  {
    forall name, row | Stays(fp, files, name, row, source)
      ensures name == home
    {
      assert FileOf(files, name, source);
    }
    forall name | Rewritten(fp, files, name, source)
      ensures name == home
    {
      assert FileOf(files, name, source);
    }
  }

  lemma FullFileIsRight(fp: Fingerprint, files: Files, home: Name, source: string)
    requires Validated(files) && OwnSources(files) && AtMostOneFile(files, source) && FileOf(files, home, source)
    requires Selection(fp, files, source) != {} && LeftAlone(fp, files, home)
    requires forall row | row in Selection(fp, files, source) :: row in Rows(files, home)
    ensures SourceIsRight(fp, files, source)
  {
    OnlyFileStays(fp, files, home, source);
    assert ValidPair(files, home);
    UniqueRowsCount(Rows(files, home));
    SameSizeSubset(Selection(fp, files, source), RowsOf(Rows(files, home)));
    forall name, row | Stays(fp, files, name, row, source)
      ensures row in Selection(fp, files, source)
    {
      assert row in RowsOf(Rows(files, home));
    }
    forall row | row in Selection(fp, files, source)
      ensures Stays(fp, files, home, row, source)
    {
    }
  }

  /** When rows match their manifests no canonical row is lost, even when files share a source. */
  lemma OwnSourcesLoseNothing(fp: Fingerprint, files: Files)
    requires Injective(fp) && Validated(files) && OwnSources(files)
    ensures Deduplicated(fp, files) <= AllRowsOf(Promoted(fp, files))
  {
    forall row | row in Deduplicated(fp, files)
      ensures row in AllRowsOf(Promoted(fp, files))
    {
      var name := HomeOf(fp, files, row);
      assert Keeps(fp, files, name, row);
      PromotedRowsAreKept(fp, files, row);
    }
  }

  /* ------------------------------------------------ datasets on which it fails */

  /** A pair whose manifest names `source`. */
  function PairOf(name: Name, source: string, rows: seq<Row>): Files
  {
    var counts := RunCounts(|rows|, |rows|, map[]);
    map[DataFile(name) := Parquet(rows),
        ManifestFile(name) := ManifestText(Manifest(source, OutputIdentity(name, Sha256(Parquet(rows))), counts, ""))]
  }

  /** Two files whose manifests name each other's source: one row in the first, two in the second. */
  function SwappedSources(a: Row, b: Row, c: Row): Files
  {
    PairOf("a", b.source, [a]) + PairOf("b", a.source, [b, c])
  }

  /** A validated dataset of two such files, whatever their names. */
  ghost predicate IsSwapped(files: Files, x: Name, y: Name, a: Row, b: Row, c: Row)
  {
    && Validated(files) && Names(files) == {x, y}
    && Rows(files, x) == [a] && Rows(files, y) == [b, c]
    && ManifestOf(files, x).source == b.source == c.source && ManifestOf(files, y).source == a.source
  }

  lemma SwappedSourcesAreValid(a: Row, b: Row, c: Row)
    requires b.source == c.source && b.id != c.id
    requires Eligible(a, true) && Eligible(b, true) && Eligible(c, true)
    ensures IsSwapped(SwappedSources(a, b, c), "a", "b", a, b, c)
  {
    var files := SwappedSources(a, b, c);
    assert "a" != "b";
    assert files.Keys == {DataFile("a"), ManifestFile("a"), DataFile("b"), ManifestFile("b")};
    assert forall name :: name in Names(files) <==> DataFile(name) in files;
    assert forall name :: name in ManifestNames(files) <==> ManifestFile(name) in files;
    assert DataFile("a") in files && DataFile("b") in files;
  }

  lemma RowsOfSwapped(files: Files, x: Name, y: Name, a: Row, b: Row, c: Row)
    requires IsSwapped(files, x, y, a, b, c)
    ensures AllRowsOf(files) == {a, b, c}
  {
    forall row: Row
      ensures row in AllRowsOf(files) <==> row in {a, b, c}
    {
      if row in AllRowsOf(files) {
        var path :| path in files && path.DataFile? && row in Rows(files, path.name);
        assert path.name in Names(files);
      }
      if row in {a, b, c} {
        var name := if row == a then x else y;
        assert name in Names(files) && row in Rows(files, name);
        assert DataFile(name) in files && DataFile(name).name == name;
      }
    }
  }

  lemma SelectionsOfSwapped(fp: Fingerprint, files: Files, x: Name, y: Name, a: Row, b: Row, c: Row)
    requires IsSwapped(files, x, y, a, b, c) && a.source != b.source && b != c
    requires Deduplicated(fp, files) == {a, b, c}
    ensures KnownSources(fp, files) && x in Names(files) && y in Names(files)
    ensures LeftAlone(fp, files, x) && !LeftAlone(fp, files, y)
  {
    assert x in Names(files) && y in Names(files);
    assert Selection(fp, files, b.source) == {b, c};
    assert Selection(fp, files, a.source) == {a};
  }

  lemma SwapKeepsOneRow(fp: Fingerprint, files: Files, x: Name, y: Name, a: Row, b: Row, c: Row, row: Row)
    requires IsSwapped(files, x, y, a, b, c) && a.source != b.source
    requires x in Names(files) && y in Names(files) && LeftAlone(fp, files, x) && !LeftAlone(fp, files, y)
    requires Deduplicated(fp, files) == {a, b, c}
    ensures IsKept(fp, files, row) <==> row == a
  {
    assert Keeps(fp, files, x, row) <==> row == a;
    assert Keeps(fp, files, y, row) <==> row == a;
  }

  /** A dataset that passes the validations and whose sources are known, on which the pass loses two
      canonical rows: the file of one row is left alone, and the file of two is rewritten to hold that row. */
  lemma SwappedSourcesLoseRows(fp: Fingerprint, a: Row, b: Row, c: Row)
    requires Injective(fp) && a.source != b.source && b.source == c.source
    requires a.id != b.id && a.id != c.id && b.id != c.id
    requires Eligible(a, true) && Eligible(b, true) && Eligible(c, true)
    ensures var files := SwappedSources(a, b, c);
            && Validated(files) && KnownSources(fp, files)
            && Deduplicated(fp, files) == {a, b, c} && AllRowsOf(Promoted(fp, files)) == {a}
  {
    SwappedSourcesAreValid(a, b, c);
    SwapLosesRows(fp, SwappedSources(a, b, c), "a", "b", a, b, c);
  }

  lemma SwapLosesRows(fp: Fingerprint, files: Files, x: Name, y: Name, a: Row, b: Row, c: Row)
    requires Injective(fp) && IsSwapped(files, x, y, a, b, c)
    requires a.source != b.source && a.id != b.id && a.id != c.id && b.id != c.id
    requires Eligible(a, true) && Eligible(b, true) && Eligible(c, true)
    ensures KnownSources(fp, files)
    ensures Deduplicated(fp, files) == {a, b, c} && AllRowsOf(Promoted(fp, files)) == {a}
  {
    RowsOfSwapped(files, x, y, a, b, c);
    DistinctRowsAreCanonical(fp, {a, b, c});
    SelectionsOfSwapped(fp, files, x, y, a, b, c);
    forall row: Row
      ensures row in AllRowsOf(Promoted(fp, files)) <==> row == a
    {
      PromotedRowsAreKept(fp, files, row);
      SwapKeepsOneRow(fp, files, x, y, a, b, c, row);
    }
  }

  lemma DistinctRowsAreCanonical(fp: Fingerprint, rows: set<Row>)
    requires OnePerIdentity(rows) && forall row :: row in rows ==> Eligible(row, true)
    ensures Canonical(fp, rows, true) == rows
  {
    forall row | row in rows
      ensures IsWinner(fp, rows, true, row)
    {
      BeforeIsStrictOrder(fp, row, row, row);
    }
  }

  /** A validated dataset of two files of one source, each with the one row, whatever their names. */
  ghost predicate IsCopied(files: Files, x: Name, y: Name, row: Row)
  {
    && Validated(files) && Names(files) == {x, y} && x != y
    && Rows(files, x) == [row] == Rows(files, y)
    && ManifestOf(files, x).source == row.source == ManifestOf(files, y).source
  }

  /** Two files of one source that hold the same row. */
  function TwoCopies(row: Row): Files
  {
    PairOf("a", row.source, [row]) + PairOf("b", row.source, [row])
  }

  lemma TwoCopiesAreValid(row: Row)
    requires Eligible(row, true)
    ensures IsCopied(TwoCopies(row), "a", "b", row)
  {
    var files := TwoCopies(row);
    assert "a" != "b";
    assert files.Keys == {DataFile("a"), ManifestFile("a"), DataFile("b"), ManifestFile("b")};
    assert forall name :: name in Names(files) <==> DataFile(name) in files;
    assert forall name :: name in ManifestNames(files) <==> ManifestFile(name) in files;
    assert DataFile("a") in files && DataFile("b") in files;
  }

  /** A dataset that passes the validations and whose rows match their manifests, on which the pass
      keeps one canonical row twice: neither file holds more rows than its source has. */
  lemma TwoCopiesBothStay(fp: Fingerprint, row: Row)
    requires Injective(fp) && Eligible(row, true)
    ensures var files := TwoCopies(row);
            && Validated(files) && KnownSources(fp, files) && OwnSources(files)
            && Deduplicated(fp, files) == {row}
            && Places(Promoted(fp, files), row) == {("a", 0), ("b", 0)}
  {
    TwoCopiesAreValid(row);
    CopiesBothStay(fp, TwoCopies(row), "a", "b", row);
  }

  lemma CopiesBothStay(fp: Fingerprint, files: Files, x: Name, y: Name, row: Row)
    requires Injective(fp) && IsCopied(files, x, y, row) && Eligible(row, true)
    ensures KnownSources(fp, files) && OwnSources(files) && Deduplicated(fp, files) == {row}
    ensures Places(Promoted(fp, files), row) == {(x, 0), (y, 0)}
  {
    CopiesAreOneRow(files, x, y, row);
    DistinctRowsAreCanonical(fp, {row});
    CopiesMatchTheirSource(fp, files, x, y, row);
    CopyStays(fp, files, x, row);
    CopyStays(fp, files, y, row);
    PromotedKeepsPaths(fp, files);
    PlacesOfTwo(Promoted(fp, files), x, y, row);
  }

  lemma CopiesAreOneRow(files: Files, x: Name, y: Name, row: Row)
    requires IsCopied(files, x, y, row)
    ensures AllRowsOf(files) == {row}
  {
    assert x in Names(files);
    assert DataFile(x) in files && row in Rows(files, DataFile(x).name);
    forall other | other in AllRowsOf(files)
      ensures other == row
    {
      var path :| path in files && path.DataFile? && other in Rows(files, path.name);
      assert path.name in Names(files);
    }
  }

  lemma CopiesMatchTheirSource(fp: Fingerprint, files: Files, x: Name, y: Name, row: Row)
    requires IsCopied(files, x, y, row) && Deduplicated(fp, files) == {row}
    ensures KnownSources(fp, files) && OwnSources(files)
    ensures x in Names(files) && y in Names(files)
    ensures Selection(fp, files, row.source) == {row}
  {
    assert x in Names(files) && y in Names(files);
  }

  lemma CopyStays(fp: Fingerprint, files: Files, name: Name, row: Row)
    requires Injective(fp) && Validated(files) && name in Names(files)
    requires Rows(files, name) == [row] && Selection(fp, files, ManifestOf(files, name).source) == {row}
    ensures Rows(Promoted(fp, files), name) == [row]
  {
    PromotedAt(fp, files, name);
  }

  lemma PlacesOfTwo(files: Files, x: Name, y: Name, row: Row)
    requires Names(files) == {x, y} && Rows(files, x) == [row] && Rows(files, y) == [row]
    ensures Places(files, row) == {(x, 0), (y, 0)}
  {
    assert x in Names(files) && y in Names(files);
  }
}
