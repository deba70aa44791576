/** A manifest as the records of its log: decoding the edits and replaying them. */
module ManifestBytes {
  import opened InternalKeys
  import opened Version
  import opened Coding
  import Manifest
  import ManifestReplay
  import EditFormat

  /** The file that metadata stands for; the table itself is found by its number. */
  type Files = EditFormat.NewFile -> File

  /** The edit that decoded bytes stand for. */
  function Meaning(e: EditFormat.Edit, file: Files): Manifest.Edit {
    Manifest.Edit(
      e.comparator, e.logNumber, e.prevLog, e.nextFile, e.lastSeq,
      set d | d in e.deleted :: Manifest.At(d.level, d.number),
      seq(|e.files|, i requires 0 <= i < |e.files| => Manifest.At(e.files[i].level, file(e.files[i]))))
  }

  lemma MeaningSays(e: EditFormat.Edit, file: Files)
    requires EditFormat.EditOk(e)
    ensures Manifest.EditOk(Meaning(e, file))
    ensures forall l, n :: Manifest.Deletes(Meaning(e, file), l, n) <==> EditFormat.Deleted(l, n) in e.deleted
    ensures forall l, f :: Manifest.Adds(Meaning(e, file), l, f) <==>
              exists i :: 0 <= i < |e.files| && e.files[i].level == l && file(e.files[i]) == f
  {
    var m := Meaning(e, file);
    forall l, n
      ensures Manifest.Deletes(m, l, n) <==> EditFormat.Deleted(l, n) in e.deleted
    {
      if EditFormat.Deleted(l, n) in e.deleted {
        var d := EditFormat.Deleted(l, n);
        assert Manifest.At(d.level, d.number) in m.deleted;
      }
    }
    forall l, f
      ensures Manifest.Adds(m, l, f) <==> exists i :: 0 <= i < |e.files| && e.files[i].level == l && file(e.files[i]) == f
    {
      if i :| 0 <= i < |e.files| && e.files[i].level == l && file(e.files[i]) == f {
        assert m.added[i] == Manifest.At(l, f);
      }
    }
  }

  lemma MeaningOk(e: EditFormat.Edit, file: Files)
    requires forall d :: d in e.deleted ==> d.level < NUM_LEVELS
    requires forall i :: 0 <= i < |e.files| ==> e.files[i].level < NUM_LEVELS
    ensures Manifest.EditOk(Meaning(e, file))
  {
  }

  /** Decoded levels are in range, whatever the bytes. */
  ghost predicate LevelsOk(e: EditFormat.Edit) {
    && (forall d :: d in e.deleted ==> d.level < NUM_LEVELS)
    && (forall i :: 0 <= i < |e.files| ==> e.files[i].level < NUM_LEVELS)
  }

  lemma TakenLevels(tag: nat, b: Bytes)
    ensures match EditFormat.TakeFields(tag, b)
            case Malformed => true
            case Got(i, _) =>
              (i.DeletedFile? ==> i.d.level < NUM_LEVELS) && (i.AddedFile? ==> i.f.level < NUM_LEVELS)
  {
    hide GetVarint32, GetVarint64, GetSlice;
  }

  lemma UpdateLevels(e: EditFormat.Edit, i: EditFormat.Item)
    requires LevelsOk(e) && (i.DeletedFile? ==> i.d.level < NUM_LEVELS) && (i.AddedFile? ==> i.f.level < NUM_LEVELS)
    ensures LevelsOk(EditFormat.Update(e, i))
  {
  }

  lemma {:induction false} DecodedLevels(b: Bytes, e: EditFormat.Edit)
    requires LevelsOk(e)
    ensures EditFormat.Decode(b, e).Decoded? ==> LevelsOk(EditFormat.Decode(b, e).edit)
    decreases |b|
  {
    hide GetVarint32, EditFormat.TakeFields, EditFormat.Update, LevelsOk;
    match GetVarint32(b)
    case Malformed =>
    case Got(tag, rest) =>
      match EditFormat.TakeFields(tag, rest)
      case Malformed =>
      case Got(i, rest') =>
        TakenLevels(tag, rest);
        UpdateLevels(e, i);
        GetVarintRest(b);
        EditFormat.TakeFieldsRest(tag, rest);
        DecodedLevels(rest', EditFormat.Update(e, i));
  }

  /** The edits the records decode to, up to the first corrupt one. */
  ghost predicate Decodes(records: seq<Bytes>, edits: seq<EditFormat.Edit>) {
    && |edits| <= |records|
    && (forall i :: 0 <= i < |edits| ==> EditFormat.Decode(records[i], EditFormat.FRESH) == EditFormat.Decoded(edits[i]))
  }

  ghost function Meanings(edits: seq<EditFormat.Edit>, file: Files): (r: seq<Manifest.Edit>)
    ensures |r| == |edits| && forall i :: 0 <= i < |edits| ==> r[i] == Meaning(edits[i], file)
  {
    seq(|edits|, i requires 0 <= i < |edits| => Meaning(edits[i], file))
  }

  datatype Result = BadRecord | Replayed(r: ManifestReplay.Recovered)

  /** VersionSet::Recover from the records of the manifest: the first corrupt record or
      foreign comparator fails it; otherwise the outcome is that of replaying all the
      decoded edits with one builder. */
  method RecoverRecords(records: seq<Bytes>, name: Bytes, file: Files)
    returns (r: Result, ghost edits: seq<EditFormat.Edit>)
    ensures Decodes(records, edits)
    ensures r.BadRecord? ==>
              |edits| < |records| && EditFormat.Decode(records[|edits|], EditFormat.FRESH) == EditFormat.Corrupt
    ensures r == Replayed(ManifestReplay.Failed(ManifestReplay.WrongComparator)) <==>
              exists i :: 0 <= i < |edits| && ManifestReplay.Mismatch(Meaning(edits[i], file), name)
    ensures r.Replayed? && r.r.Recovered? ==>
              && |edits| == |records| && |r.r.levels| == NUM_LEVELS
              && var ms := Meanings(edits, file);
                 && ManifestReplay.IsLast(ms, ManifestReplay.LogNumber, Some(r.r.logNumber))
                 && ManifestReplay.IsLast(ms, ManifestReplay.LastSeq, Some(r.r.lastSeq))
                 && forall l :: 0 <= l < NUM_LEVELS && ManifestReplay.NumbersFixAll(ms, l) ==>
                      Manifest.Lists(r.r.levels[l], Manifest.Replay(iset{}, ms, l))
  {
    hide EditFormat.Decode, Meaning, Manifest.EditOk, ManifestReplay.IsLast, ManifestReplay.NumbersFixAll;
    hide Manifest.Lists, Manifest.Replay, ManifestReplay.Mismatch;
    edits := [];
    var ms: seq<Manifest.Edit> := [];
    var i := 0;
    while i < |records|
      invariant 0 <= i <= |records| && |edits| == i && Decodes(records, edits) && ms == Meanings(edits, file)
      invariant forall m :: m in ms ==> Manifest.EditOk(m) && !ManifestReplay.Mismatch(m, name)
    {
      var d := EditFormat.DecodeFrom(records[i]);
      if d.Corrupt? {
        return BadRecord, edits;
      }
      FreshLevels();
      DecodedLevels(records[i], EditFormat.FRESH);
      MeaningOk(d.edit, file);
      var m := Meaning(d.edit, file);
      edits := edits + [d.edit];
      if ManifestReplay.Mismatch(m, name) {
        assert edits[i] == d.edit;
        return Replayed(ManifestReplay.Failed(ManifestReplay.WrongComparator)), edits;
      }
      ms := ms + [m];
      i := i + 1;
    }
    assert forall j :: 0 <= j < |edits| ==> ms[j] in ms && ms[j] == Meaning(edits[j], file);
    var recovered := ManifestReplay.Recover(ms, name);
    r := Replayed(recovered);
  }

  lemma FreshLevels()
    ensures LevelsOk(EditFormat.FRESH)
  {
  }
}
