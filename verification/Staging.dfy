/** What one deduplication pass does to the contents of a dataset.

    Main results: after the staged files replace the old ones the dataset holds
    exactly the canonical rows, each in the file of its source; the counts
    balance; and staging the result again finds nothing to drop.
 */
module Staging {
  import opened CanonicalRows
  import opened Counts
  import opened Dataset
  import opened SortedText

  /** The staged pairs of a whole dataset, in name order. */
  function Plan(fp: Fingerprint, files: Files): seq<StagedFile>
    requires Injective(fp) && Validated(files)
  {
    StageChanges(fp, files, Sorted(Names(files)))
  }

  /** The dataset with every staged file moved into place. */
  function Promoted(fp: Fingerprint, files: Files): Files
    requires Injective(fp) && Validated(files)
  {
    files + NewFiles(Plan(fp, files))
  }

  /** Every file holds rows of its manifest's source only. */
  ghost predicate OwnSources(files: Files)
    requires Validated(files)
  {
    forall name, row | name in Names(files) && row in Rows(files, name) :: row.source == ManifestOf(files, name).source
  }

  /** Beyond that, no two files share a source. */
  ghost predicate SeparateSources(files: Files)
    requires Validated(files)
  {
    && OwnSources(files)
    && (forall a, b | a in Names(files) && b in Names(files) && a != b ::
          ManifestOf(files, a).source != ManifestOf(files, b).source)
  }

  lemma {:induction false} NewFilesOfChanges(fp: Fingerprint, files: Files, names: seq<Name>, path: Path)
    requires Injective(fp) && AllHaveManifests(files, names)
    ensures var after := NewFiles(StageChanges(fp, files, names));
            && (path in after <==> path.name in names && StageSource(fp, files, path.name) != [])
            && (path in after ==>
                  after[path] == if path.DataFile? then Parquet(StageSource(fp, files, path.name)[0].rows)
                               else ManifestText(StageSource(fp, files, path.name)[0].manifest))
  {
    if names != [] {
      NewFilesOfChanges(fp, files, names[1..], path);
      var first := StageSource(fp, files, names[0]);
      var rest := StageChanges(fp, files, names[1..]);
      assert path.name in names <==> path.name == names[0] || path.name in names[1..];
      if first != [] {
        assert (first + rest)[0] == first[0] && (first + rest)[1..] == rest;
      } else {
        assert first + rest == rest;
      }
    }
  }

  /** What stands at each path after promotion. */
  lemma PromotedAt(fp: Fingerprint, files: Files, name: Name)
    requires Injective(fp) && Validated(files) && name in Names(files)
    ensures var after, staged := Promoted(fp, files), StageSource(fp, files, name);
            && DataFile(name) in after && ManifestFile(name) in after
            && after[DataFile(name)] == (if staged == [] then files[DataFile(name)] else Parquet(staged[0].rows))
            && after[ManifestFile(name)]
               == (if staged == [] then files[ManifestFile(name)] else ManifestText(staged[0].manifest))
  {
    NewFilesOfChanges(fp, files, Sorted(Names(files)), DataFile(name));
    NewFilesOfChanges(fp, files, Sorted(Names(files)), ManifestFile(name));
  }

  lemma PromotedKeepsPaths(fp: Fingerprint, files: Files)
    requires Injective(fp) && Validated(files)
    ensures NewFiles(Plan(fp, files)).Keys <= files.Keys
    ensures Promoted(fp, files).Keys == files.Keys
    ensures Names(Promoted(fp, files)) == Names(files)
  {
    forall path | path in NewFiles(Plan(fp, files))
      ensures path in files
    {
      NewFilesOfChanges(fp, files, Sorted(Names(files)), path);
    }
    assert Promoted(fp, files).Keys == files.Keys;
  }

  lemma StagedRows(fp: Fingerprint, files: Files, name: Name)
    requires Injective(fp) && HasManifest(files, name) && StageSource(fp, files, name) != []
    ensures var staged := StageSource(fp, files, name)[0];
            && RowsOf(staged.rows) == Selection(fp, files, ManifestOf(files, name).source)
            && |staged.rows| == |Selection(fp, files, ManifestOf(files, name).source)|
            && UniqueIdentities(staged.rows)
            && staged.dropped == |Rows(files, name)| - |staged.rows| > 0
  {
    var selection := Selection(fp, files, ManifestOf(files, name).source);
    SelectionIsOnePerIdentity(fp, files, ManifestOf(files, name).source);
    OrderedRowsMeaning(selection);
  }

  /** A rewritten pair passes the validations that the next pass starts with. */
  lemma StagedPairIsValid(fp: Fingerprint, files: Files, name: Name)
    requires Injective(fp) && Validated(files) && name in Names(files) && StageSource(fp, files, name) != []
    ensures ValidPair(Promoted(fp, files), name)
  {
    PromotedAt(fp, files, name);
    StagedRows(fp, files, name);
    var rows := StageSource(fp, files, name)[0].rows;
    forall i | 0 <= i < |rows|
      ensures rows[i].source == ManifestOf(files, name).source && Eligible(rows[i], true)
    {
      assert rows[i] in RowsOf(rows);
    }
  }

  /** A promoted dataset passes the validations that the next pass starts with. */
  lemma PromotedIsValidated(fp: Fingerprint, files: Files)
    requires Injective(fp) && Validated(files)
    ensures Validated(Promoted(fp, files))
  {
    var after := Promoted(fp, files);
    PromotedKeepsPaths(fp, files);
    forall name | name in Names(after)
      ensures ValidPair(after, name)
    {
      if StageSource(fp, files, name) != [] {
        StagedPairIsValid(fp, files, name);
      } else {
        PromotedAt(fp, files, name);
        assert ValidPair(files, name);
      }
    }
    assert ManifestNames(after) == ManifestNames(files);
  }

  lemma {:induction false} UniqueRowsCount(rows: seq<Row>)
    requires UniqueIdentities(rows)
    ensures |RowsOf(rows)| == |rows|
  {
    if rows != [] {
      UniqueRowsCount(rows[1..]);
      assert RowsOf(rows) == {rows[0]} + RowsOf(rows[1..]);
      assert rows[0] !in rows[1..];
    } else {
      assert RowsOf(rows) == {};
    }
  }

  /** The deduplicated rows of a source lie in the file of that source. */
  lemma SelectionInFile(fp: Fingerprint, files: Files, name: Name)
    requires Validated(files) && SeparateSources(files) && name in Names(files)
    ensures Selection(fp, files, ManifestOf(files, name).source) <= RowsOf(Rows(files, name))
  {
    forall row | row in Selection(fp, files, ManifestOf(files, name).source)
      ensures row in Rows(files, name)
    {
      var path :| path in files && path.DataFile? && row in Rows(files, path.name);
      assert path.name in Names(files);
    }
  }

  /** After promotion each file holds exactly the canonical rows of its source, each once, and a
      file left alone already did. */
  lemma FileHoldsSelection(fp: Fingerprint, files: Files, name: Name)
    requires Injective(fp) && Validated(files) && SeparateSources(files) && name in Names(files)
    ensures var rows := Rows(Promoted(fp, files), name);
            && RowsOf(rows) == Selection(fp, files, ManifestOf(files, name).source) <= RowsOf(Rows(files, name))
            && UniqueIdentities(rows)
  {
    PromotedAt(fp, files, name);
    SelectionInFile(fp, files, name);
    assert ValidPair(files, name);
    if StageSource(fp, files, name) != [] {
      StagedRows(fp, files, name);
    } else {
      var selection := Selection(fp, files, ManifestOf(files, name).source);
      UniqueRowsCount(Rows(files, name));
      SameSizeSubset(selection, RowsOf(Rows(files, name)));
    }
  }

  lemma SameSizeSubset<T>(a: set<T>, b: set<T>)
    requires a <= b && |a| >= |b|
    ensures a == b
  {
    assert |b| == |a| + |b - a|;
  }

  function Identities(rows: set<Row>): set<Identity>
  {
    set row | row in rows :: row.id
  }

  lemma PromotedRowIsCanonical(fp: Fingerprint, files: Files, row: Row)
    requires Injective(fp) && Validated(files) && SeparateSources(files)
    ensures row in AllRowsOf(Promoted(fp, files)) <==> row in Deduplicated(fp, files)
  {
    var after := Promoted(fp, files);
    PromotedKeepsPaths(fp, files);
    if row in AllRowsOf(after) {
      var path :| path in after && path.DataFile? && row in Rows(after, path.name);
      assert path.name in Names(after);
      FileHoldsSelection(fp, files, path.name);
      assert row in RowsOf(Rows(after, path.name));
    }
    if row in Deduplicated(fp, files) {
      var path :| path in files && path.DataFile? && row in Rows(files, path.name);
      assert path.name in Names(files);
      FileHoldsSelection(fp, files, path.name);
      assert row in Selection(fp, files, ManifestOf(files, path.name).source);
      assert row in RowsOf(Rows(after, path.name));
      assert DataFile(path.name) in after;
    }
  }

  /** The promoted dataset is the set of canonical rows: one for each identity of the old
      dataset, and the identities are the same. */
  lemma PromotedIsCanonical(fp: Fingerprint, files: Files)
    requires Injective(fp) && Validated(files) && SeparateSources(files)
    ensures AllRowsOf(Promoted(fp, files)) == Deduplicated(fp, files)
    ensures OnePerIdentity(AllRowsOf(Promoted(fp, files)))
    ensures Identities(AllRowsOf(Promoted(fp, files))) == Identities(AllRowsOf(files))
  {
    var after := Promoted(fp, files);
    forall row: Row
      ensures row in AllRowsOf(after) <==> row in Deduplicated(fp, files)
    {
      PromotedRowIsCanonical(fp, files, row);
    }
    assert AllRowsOf(after) == Deduplicated(fp, files);
    forall row | row in AllRowsOf(files)
      ensures Eligible(row, true)
    {
      var path :| path in files && path.DataFile? && row in Rows(files, path.name);
      assert path.name in Names(files);
      assert ValidPair(files, path.name);
    }
    forall id: Identity
      ensures id in Identities(AllRowsOf(files)) <==> id in Identities(AllRowsOf(after))
    {
      CanonicalCoversIdentities(fp, AllRowsOf(files), true, id);
    }
    CanonicalCoversIdentities(fp, AllRowsOf(files), true, Identity("", 0));
  }

  /** No identity is left in two files. */
  lemma IdentitiesAreGloballyUnique(fp: Fingerprint, files: Files, a: Name, b: Name, i: nat, j: nat)
    requires Injective(fp) && Validated(files) && SeparateSources(files) && a in Names(files) && b in Names(files)
    requires i < |Rows(Promoted(fp, files), a)| && j < |Rows(Promoted(fp, files), b)|
    requires Rows(Promoted(fp, files), a)[i].id == Rows(Promoted(fp, files), b)[j].id
    ensures a == b && i == j
  {
    var after := Promoted(fp, files);
    FileHoldsSelection(fp, files, a);
    FileHoldsSelection(fp, files, b);
    var x, y := Rows(after, a)[i], Rows(after, b)[j];
    assert x in RowsOf(Rows(after, a)) && y in RowsOf(Rows(after, b));
    WinnersAreUnique(fp, AllRowsOf(files), true, x, y);
  }

  function Dropped(staged: seq<StagedFile>): nat
  {
    if staged == [] then 0 else staged[0].dropped + Dropped(staged[1..])
  }

  lemma {:induction false} DroppedConcat(a: seq<StagedFile>, b: seq<StagedFile>)
    ensures Dropped(a + b) == Dropped(a) + Dropped(b)
  {
    if a == [] {
      assert a + b == b;
    } else {
      assert (a + b)[1..] == a[1..] + b;
      DroppedConcat(a[1..], b);
    }
  }

  /** Input rows are output rows plus the rows dropped file by file, over any list of files. */
  lemma {:induction false} RowsAreConserved(fp: Fingerprint, files: Files, names: seq<Name>)
    requires Injective(fp) && Validated(files) && SeparateSources(files)
    requires forall name :: name in names ==> name in Names(files)
    ensures CurrentRows(files, names) == OutputRows(fp, files, names) + Dropped(StageChanges(fp, files, names))
    ensures CurrentRows(Promoted(fp, files), names) == OutputRows(fp, files, names)
  {
    if names != [] {
      var name := names[0];
      assert ValidPair(files, name);
      RowsAreConserved(fp, files, names[1..]);
      var first := StageSource(fp, files, name);
      DroppedConcat(first, StageChanges(fp, files, names[1..]));
      assert first != [] ==> first[1..] == [];
      FileHoldsSelection(fp, files, name);
      UniqueRowsCount(Rows(Promoted(fp, files), name));
      UniqueRowsCount(Rows(files, name));
      SubsetIsSmaller(Selection(fp, files, ManifestOf(files, name).source), RowsOf(Rows(files, name)));
    }
  }

  lemma StagedCounts(fp: Fingerprint, files: Files, name: Name)
    requires Injective(fp) && HasManifest(files, name) && StageSource(fp, files, name) != []
    ensures var staged, before := StageSource(fp, files, name)[0], ManifestOf(files, name).counts;
            staged.manifest.counts == RunCounts(before.emitted, |staged.rows|,
                                                Raised(before.rejections, DUPLICATE_REJECTION_REASON, staged.dropped))
  {
  }

  /** A rewritten manifest still accounts for every emitted feature. */
  lemma RewrittenManifestBalances(fp: Fingerprint, files: Files, name: Name)
    requires Injective(fp) && HasManifest(files, name) && StageSource(fp, files, name) != []
    requires ManifestOf(files, name).counts.included == |Rows(files, name)|
    requires Balanced(ManifestOf(files, name).counts)
    ensures Balanced(StageSource(fp, files, name)[0].manifest.counts)
  {
    var staged, before := StageSource(fp, files, name)[0], ManifestOf(files, name).counts;
    StagedRows(fp, files, name);
    StagedCounts(fp, files, name);
    RaisedSum(before.rejections, DUPLICATE_REJECTION_REASON, staged.dropped);
  }

  /** Promotion keeps every manifest balanced, files the rows that are gone under the one reason, and
      touches nothing else but the output. */
  lemma PromotionKeepsBalance(fp: Fingerprint, files: Files, name: Name)
    requires Injective(fp) && Validated(files) && name in Names(files)
    requires Balanced(ManifestOf(files, name).counts)
    ensures HasManifest(Promoted(fp, files), name)
    ensures Balanced(ManifestOf(Promoted(fp, files), name).counts)
    ensures var before, after := ManifestOf(files, name), ManifestOf(Promoted(fp, files), name);
            && after.source == before.source && after.rest == before.rest
            && after.counts.emitted == before.counts.emitted
            && forall reason ::
                 CountOf(after.counts.rejections, reason)
                 == CountOf(before.counts.rejections, reason)
                  + if reason == "duplicate_osm_object"
                    then |Rows(files, name)| - |Rows(Promoted(fp, files), name)| else 0
  {
    assert ValidPair(files, name);
    PromotedAt(fp, files, name);
    if StageSource(fp, files, name) != [] {
      RewrittenManifestBalances(fp, files, name);
      StagedRows(fp, files, name);
    }
  }

  /** Deduplicating the result again, even without any recorded state, stages nothing. */
  lemma SecondPassStagesNothing(fp: Fingerprint, files: Files)
    requires Injective(fp) && Validated(files) && SeparateSources(files)
    ensures Validated(Promoted(fp, files)) && SeparateSources(Promoted(fp, files))
    ensures Plan(fp, Promoted(fp, files)) == []
  {
    var after := Promoted(fp, files);
    PromotedIsValidated(fp, files);
    PromotedKeepsPaths(fp, files);
    PromotedIsCanonical(fp, files);
    CanonicalIdempotent(fp, AllRowsOf(files), true);
    forall name | name in Names(after)
      ensures ManifestOf(after, name).source == ManifestOf(files, name).source
      ensures StageSource(fp, after, name) == []
      ensures forall row | row in Rows(after, name) :: row.source == ManifestOf(after, name).source
    {
      PromotedAt(fp, files, name);
      FileHoldsSelection(fp, files, name);
      UniqueRowsCount(Rows(after, name));
      assert forall row | row in Rows(after, name) :: row in RowsOf(Rows(after, name));
      assert Selection(fp, after, ManifestOf(after, name).source) == RowsOf(Rows(after, name));
    }
    NothingToStage(fp, after, Sorted(Names(after)));
  }

  lemma {:induction false} NothingToStage(fp: Fingerprint, files: Files, names: seq<Name>)
    requires Injective(fp) && AllHaveManifests(files, names)
    requires forall name :: name in names ==> StageSource(fp, files, name) == []
    ensures StageChanges(fp, files, names) == []
  {
    if names != [] {
      NothingToStage(fp, files, names[1..]);
    }
  }
}
