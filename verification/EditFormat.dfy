/** VersionEdit as bytes: EncodeTo and DecodeFrom. */
module EditFormat {
  import opened Coding
  import opened InternalKeys
  import Version

  const LEVELS: nat := Version.NUM_LEVELS

  const COMPARATOR: nat := 1
  const LOG_NUMBER: nat := 2
  const NEXT_FILE_NUMBER: nat := 3
  const LAST_SEQUENCE: nat := 4
  const COMPACT_KEY: nat := 5
  const DELETED_FILE: nat := 6
  const NEW_FILE: nat := 7
  const PREV_LOG_NUMBER: nat := 9

  datatype Pointer = Pointer(level: nat, key: Bytes)

  datatype Deleted = Deleted(level: nat, number: nat)

  datatype NewFile = NewFile(level: nat, number: nat, size: nat, smallest: Bytes, largest: Bytes)

  datatype Edit = Edit(
    comparator: Option<Bytes>,
    logNumber: Option<nat>,
    prevLog: Option<nat>,
    nextFile: Option<nat>,
    lastSeq: Option<nat>,
    pointers: seq<Pointer>,
    deleted: set<Deleted>,
    files: seq<NewFile>)

  const FRESH: Edit := Edit(None, None, None, None, None, [], {}, [])

  // ----- the widths the fields have -----

  predicate Word(f: Option<nat>) {
    f.Some? ==> f.value < TWO64
  }

  predicate Short(b: Bytes) {
    |b| < TWO32
  }

  predicate PointerOk(p: Pointer) {
    p.level < LEVELS && Short(p.key)
  }

  predicate DeletedOk(d: Deleted) {
    d.level < LEVELS && d.number < TWO64
  }

  predicate FileOk(f: NewFile) {
    f.level < LEVELS && f.number < TWO64 && f.size < TWO64 && Short(f.smallest) && Short(f.largest)
  }

  ghost predicate EditOk(e: Edit) {
    && (e.comparator.Some? ==> Short(e.comparator.value))
    && Word(e.logNumber) && Word(e.prevLog) && Word(e.nextFile) && Word(e.lastSeq)
    && (forall i :: 0 <= i < |e.pointers| ==> PointerOk(e.pointers[i]))
    && (forall d :: d in e.deleted ==> DeletedOk(d))
    && (forall i :: 0 <= i < |e.files| ==> FileOk(e.files[i]))
  }

  // ----- items: a tag and its fields -----

  datatype Item =
    | Comparator(name: Bytes)
    | Number(tag: nat, n: nat)
    | CompactPointer(p: Pointer)
    | DeletedFile(d: Deleted)
    | AddedFile(f: NewFile)

  predicate NumberTag(tag: nat) {
    tag == LOG_NUMBER || tag == PREV_LOG_NUMBER || tag == NEXT_FILE_NUMBER || tag == LAST_SEQUENCE
  }

  predicate ItemOk(i: Item) {
    match i
    case Comparator(name) => Short(name)
    case Number(tag, n) => NumberTag(tag) && n < TWO64
    case CompactPointer(p) => PointerOk(p)
    case DeletedFile(d) => DeletedOk(d)
    case AddedFile(f) => FileOk(f)
  }

  function EncodeItem(i: Item): Bytes {
    match i
    case Comparator(name) => Varint(COMPARATOR) + PutSlice(name)
    case Number(tag, n) => Varint(tag) + Varint(n)
    case CompactPointer(p) => Varint(COMPACT_KEY) + Varint(p.level) + PutSlice(p.key)
    case DeletedFile(d) => Varint(DELETED_FILE) + Varint(d.level) + Varint(d.number)
    case AddedFile(f) =>
      Varint(NEW_FILE) + Varint(f.level) + Varint(f.number) + Varint(f.size) + PutSlice(f.smallest) + PutSlice(f.largest)
  }

  function GetLevel(b: Bytes): Parsed<nat> {
    match GetVarint32(b)
    case Malformed => Malformed
    case Got(v, rest) => if v < LEVELS then Got(v, rest) else Malformed
  }

  function TakeFields(tag: nat, b: Bytes): Parsed<Item> {
    if tag == COMPARATOR then
      match GetSlice(b)
      case Malformed => Malformed
      case Got(s, rest) => Got(Comparator(s), rest)
    else if NumberTag(tag) then
      match GetVarint64(b)
      case Malformed => Malformed
      case Got(n, rest) => Got(Number(tag, n), rest)
    else if tag == COMPACT_KEY then TakePointer(b)
    else if tag == DELETED_FILE then TakeDeleted(b)
    else if tag == NEW_FILE then TakeFile(b)
    else Malformed
  }

  function TakePointer(b: Bytes): Parsed<Item> {
    match GetLevel(b)
    case Malformed => Malformed
    case Got(level, rest) =>
      match GetSlice(rest)
      case Malformed => Malformed
      case Got(key, rest') => Got(CompactPointer(Pointer(level, key)), rest')
  }

  function TakeDeleted(b: Bytes): Parsed<Item> {
    match GetLevel(b)
    case Malformed => Malformed
    case Got(level, rest) =>
      match GetVarint64(rest)
      case Malformed => Malformed
      case Got(n, rest') => Got(DeletedFile(Deleted(level, n)), rest')
  }

  function TakeFile(b: Bytes): Parsed<Item> {
    match GetLevel(b)
    case Malformed => Malformed
    case Got(level, rest) =>
      match GetVarint64(rest)
      case Malformed => Malformed
      case Got(number, rest) =>
        match GetVarint64(rest)
        case Malformed => Malformed
        case Got(size, rest) => TakeBounds(level, number, size, rest)
  }

  function TakeBounds(level: nat, number: nat, size: nat, b: Bytes): Parsed<Item> {
    match GetSlice(b)
    case Malformed => Malformed
    case Got(smallest, rest) =>
      match GetSlice(rest)
      case Malformed => Malformed
      case Got(largest, rest') => Got(AddedFile(NewFile(level, number, size, smallest, largest)), rest')
  }

  function TagOf(i: Item): nat {
    match i
    case Comparator(_) => COMPARATOR
    case Number(tag, _) => tag
    case CompactPointer(_) => COMPACT_KEY
    case DeletedFile(_) => DELETED_FILE
    case AddedFile(_) => NEW_FILE
  }

  lemma LevelRoundTrip(level: nat, rest: Bytes)
    requires level < LEVELS
    ensures GetLevel(Varint(level) + rest) == Got(level, rest)
  {
    Varint32RoundTrip(level, rest);
  }

  lemma PointerRoundTrip(p: Pointer, rest: Bytes)
    requires PointerOk(p)
    ensures TakePointer(Varint(p.level) + PutSlice(p.key) + rest) == Got(CompactPointer(p), rest)
  {
    hide Varint, PutSlice, GetSlice, GetLevel;
    assert Varint(p.level) + PutSlice(p.key) + rest == Varint(p.level) + (PutSlice(p.key) + rest);
    LevelRoundTrip(p.level, PutSlice(p.key) + rest);
    SliceRoundTrip(p.key, rest);
  }

  lemma DeletedRoundTrip(d: Deleted, rest: Bytes)
    requires DeletedOk(d)
    ensures TakeDeleted(Varint(d.level) + Varint(d.number) + rest) == Got(DeletedFile(d), rest)
  {
    hide Varint, GetVarint64, GetLevel;
    assert Varint(d.level) + Varint(d.number) + rest == Varint(d.level) + (Varint(d.number) + rest);
    LevelRoundTrip(d.level, Varint(d.number) + rest);
    Varint64RoundTrip(d.number, rest);
  }

  function BoundBytes(f: NewFile): Bytes {
    PutSlice(f.smallest) + PutSlice(f.largest)
  }

  lemma BoundsRoundTrip(f: NewFile, rest: Bytes)
    requires FileOk(f)
    ensures TakeBounds(f.level, f.number, f.size, BoundBytes(f) + rest) == Got(AddedFile(f), rest)
  {
    hide PutSlice, GetSlice;
    assert BoundBytes(f) + rest == PutSlice(f.smallest) + (PutSlice(f.largest) + rest);
    SliceRoundTrip(f.smallest, PutSlice(f.largest) + rest);
    SliceRoundTrip(f.largest, rest);
  }

  lemma FileRoundTrip(f: NewFile, rest: Bytes)
    requires FileOk(f)
    ensures TakeFile(Varint(f.level) + (Varint(f.number) + (Varint(f.size) + (BoundBytes(f) + rest)))) == Got(AddedFile(f), rest)
  {
    hide Varint, GetVarint64, GetLevel, TakeBounds, BoundBytes;
    var r3 := BoundBytes(f) + rest;
    var r2 := Varint(f.size) + r3;
    var r1 := Varint(f.number) + r2;
    LevelRoundTrip(f.level, r1);
    Varint64RoundTrip(f.number, r2);
    Varint64RoundTrip(f.size, r3);
    BoundsRoundTrip(f, rest);
  }

  /** The bytes after the tag. */
  function FieldBytes(i: Item): Bytes {
    match i
    case Comparator(name) => PutSlice(name)
    case Number(_, n) => Varint(n)
    case CompactPointer(p) => Varint(p.level) + PutSlice(p.key)
    case DeletedFile(d) => Varint(d.level) + Varint(d.number)
    case AddedFile(f) => Varint(f.level) + (Varint(f.number) + (Varint(f.size) + BoundBytes(f)))
  }

  lemma SplitTag(i: Item)
    ensures EncodeItem(i) == Varint(TagOf(i)) + FieldBytes(i)
  {
    hide Varint, PutSlice;
  }

  lemma FieldsRoundTrip(i: Item, rest: Bytes)
    requires ItemOk(i)
    ensures TakeFields(TagOf(i), FieldBytes(i) + rest) == Got(i, rest)
  {
    hide Varint, PutSlice, GetSlice, GetVarint64, TakePointer, TakeDeleted, TakeFile, BoundBytes;
    match i
    case Comparator(name) => SliceRoundTrip(name, rest);
    case Number(tag, n) => Varint64RoundTrip(n, rest);
    case CompactPointer(p) => PointerRoundTrip(p, rest);
    case DeletedFile(d) => DeletedRoundTrip(d, rest);
    case AddedFile(f) =>
      FileRoundTrip(f, rest);
      assert FieldBytes(i) + rest == Varint(f.level) + (Varint(f.number) + (Varint(f.size) + (BoundBytes(f) + rest)));
  }

  // ----- DecodeFrom -----

  function Update(e: Edit, i: Item): Edit {
    match i
    case Comparator(name) => e.(comparator := Some(name))
    case Number(tag, n) =>
      if tag == LOG_NUMBER then e.(logNumber := Some(n))
      else if tag == PREV_LOG_NUMBER then e.(prevLog := Some(n))
      else if tag == NEXT_FILE_NUMBER then e.(nextFile := Some(n))
      else e.(lastSeq := Some(n))
    case CompactPointer(p) => e.(pointers := e.pointers + [p])
    case DeletedFile(d) => e.(deleted := e.deleted + {d})
    case AddedFile(f) => e.(files := e.files + [f])
  }

  datatype Decoded = Corrupt | Decoded(edit: Edit)

  lemma TakeFieldsRest(tag: nat, b: Bytes)
    ensures TakeFields(tag, b).Got? ==> |TakeFields(tag, b).rest| <= |b|
  {
    hide GetVarint32, GetVarint64, GetSlice;
    GetVarintRest(b);
    if GetVarint32(b).Got? {
      var b1 := GetVarint32(b).rest;
      GetVarintRest(b1);
      if GetVarint64(b1).Got? {
        var b2 := GetVarint64(b1).rest;
        GetVarintRest(b2);
        if GetVarint64(b2).Got? {
          var b3 := GetVarint64(b2).rest;
          GetVarintRest(b3);
          if GetSlice(b3).Got? {
            GetVarintRest(GetSlice(b3).rest);
          }
        }
      }
    }
  }

  /** What decoding the bytes makes of an edit that already holds `e`. */
  function Decode(b: Bytes, e: Edit): Decoded
    decreases |b|
  {
    match GetVarint32(b)
    case Malformed => if b == [] then Decoded(e) else Corrupt
    case Got(tag, rest) =>
      GetVarintRest(b);
      match TakeFields(tag, rest)
      case Malformed => Corrupt
      case Got(i, rest') =>
        TakeFieldsRest(tag, rest);
        Decode(rest', Update(e, i))
  }

  /** Decoding the bytes of an item performs its update. */
  lemma DecodeItem(i: Item, rest: Bytes, e: Edit)
    requires ItemOk(i)
    ensures Decode(EncodeItem(i) + rest, e) == Decode(rest, Update(e, i))
  {
    hide Varint, GetVarint32, TakeFields, EncodeItem, FieldBytes, Update;
    SplitTag(i);
    assert EncodeItem(i) + rest == Varint(TagOf(i)) + (FieldBytes(i) + rest);
    assert TagOf(i) < TWO32;
    Varint32RoundTrip(TagOf(i), FieldBytes(i) + rest);
    FieldsRoundTrip(i, rest);
    DecodeUnfold(EncodeItem(i) + rest, e);
  }

  lemma DecodeUnfold(b: Bytes, e: Edit)
    requires GetVarint32(b).Got?
    requires TakeFields(GetVarint32(b).value, GetVarint32(b).rest).Got?
    ensures var p := TakeFields(GetVarint32(b).value, GetVarint32(b).rest);
            Decode(b, e) == Decode(p.rest, Update(e, p.value))
  {
    hide GetVarint32, TakeFields, Update;
  }

  /** The bytes so far decode, whatever follows, to the edit so far. */
  ghost predicate Says(b: Bytes, e: Edit) {
    forall rest :: Decode(b + rest, FRESH) == Decode(rest, e)
  }

  lemma SaysNothing()
    ensures Says([], FRESH)
  {
    hide Decode;
    forall rest
      ensures Decode([] + rest, FRESH) == Decode(rest, FRESH)
    {
      assert [] + rest == rest;
    }
  }

  /** Appending an item to what has been said. */
  lemma SayItem(b: Bytes, e: Edit, i: Item)
    requires Says(b, e) && ItemOk(i)
    ensures Says(b + EncodeItem(i), Update(e, i))
  {
    hide Decode, EncodeItem, Update, ItemOk;
    forall rest
      ensures Decode(b + EncodeItem(i) + rest, FRESH) == Decode(rest, Update(e, i))
    {
      assert b + EncodeItem(i) + rest == b + (EncodeItem(i) + rest);
      DecodeItem(i, rest, e);
    }
  }

  method Say(b: Bytes, i: Item, ghost e: Edit) returns (r: Bytes)
    requires Says(b, e) && ItemOk(i)
    ensures Says(r, Update(e, i))
  {
    SayItem(b, e, i);
    r := b + EncodeItem(i);
  }

  method EncodeNumber(b: Bytes, tag: nat, f: Option<nat>, ghost e: Edit) returns (r: Bytes)
    requires Says(b, e) && NumberTag(tag) && Word(f)
    ensures Says(r, if f.Some? then Update(e, Number(tag, f.value)) else e)
  {
    hide Says, Update;
    r := b;
    if f.Some? {
      r := Say(b, Number(tag, f.value), e);
    }
  }

  /** The scalar fields of the edit. */
  ghost function Scalars(e: Edit): Edit {
    e.(pointers := [], deleted := {}, files := [])
  }

  method EncodeScalars(e: Edit) returns (r: Bytes)
    requires EditOk(e)
    ensures Says(r, Scalars(e))
  {
    hide Says;
    SaysNothing();
    r := [];
    ghost var s := FRESH;
    if e.comparator.Some? {
      r := Say(r, Comparator(e.comparator.value), s);
      s := s.(comparator := e.comparator);
    }
    r := EncodeNumber(r, LOG_NUMBER, e.logNumber, s);
    s := s.(logNumber := e.logNumber);
    r := EncodeNumber(r, PREV_LOG_NUMBER, e.prevLog, s);
    s := s.(prevLog := e.prevLog);
    r := EncodeNumber(r, NEXT_FILE_NUMBER, e.nextFile, s);
    s := s.(nextFile := e.nextFile);
    r := EncodeNumber(r, LAST_SEQUENCE, e.lastSeq, s);
    s := s.(lastSeq := e.lastSeq);
    assert s == Scalars(e);
  }

  /** EncodeTo: the bytes decode, into a fresh edit, to exactly this edit. Deleted
      files may come in any order. */
  method EncodeTo(e: Edit) returns (r: Bytes)
    requires EditOk(e)
    ensures Decode(r, FRESH) == Decoded(e)
  {
    hide Says, Decode;
    r := EncodeScalars(e);
    ghost var s := Scalars(e);
    var i := 0;
    while i < |e.pointers|
      invariant 0 <= i <= |e.pointers| && s == Scalars(e).(pointers := e.pointers[..i]) && Says(r, s)
    {
      r := Say(r, CompactPointer(e.pointers[i]), s);
      s := s.(pointers := e.pointers[..i + 1]);
      assert e.pointers[..i + 1] == e.pointers[..i] + [e.pointers[i]];
      i := i + 1;
    }
    assert e.pointers[..i] == e.pointers;
    var todo := e.deleted;
    while todo != {}
      invariant todo <= e.deleted && s == Scalars(e).(pointers := e.pointers, deleted := e.deleted - todo) && Says(r, s)
    {
      var d :| d in todo;
      r := Say(r, DeletedFile(d), s);
      s := s.(deleted := e.deleted - (todo - {d}));
      assert e.deleted - (todo - {d}) == (e.deleted - todo) + {d};
      todo := todo - {d};
    }
    assert e.deleted - todo == e.deleted;
    r := EncodeFiles(e, r);
    SaysAll(r, e);
  }

  method EncodeFiles(e: Edit, b: Bytes) returns (r: Bytes)
    requires EditOk(e) && Says(b, e.(files := []))
    ensures Says(r, e)
  {
    hide Says;
    r := b;
    var i := 0;
    while i < |e.files|
      invariant 0 <= i <= |e.files| && Says(r, e.(files := e.files[..i]))
    {
      r := Say(r, AddedFile(e.files[i]), e.(files := e.files[..i]));
      assert e.files[..i + 1] == e.files[..i] + [e.files[i]];
      i := i + 1;
    }
    assert e.files[..i] == e.files;
  }

  lemma SaysAll(b: Bytes, e: Edit)
    requires Says(b, e)
    ensures Decode(b, FRESH) == Decoded(e)
  {
    assert b + [] == b;
    assert Decode([], e) == Decoded(e);
  }

  /** DecodeFrom, into a fresh edit. */
  method DecodeFrom(src: Bytes) returns (r: Decoded)
    ensures r == Decode(src, FRESH)
  {
    hide Update, TakeFields, GetVarint32;
    var input, e := src, FRESH;
    while true
      invariant Decode(src, FRESH) == Decode(input, e)
      decreases |input|
    {
      GetVarintRest(input);
      match GetVarint32(input)
      case Malformed =>
        return if input == [] then Decoded(e) else Corrupt;
      case Got(tag, rest) =>
        TakeFieldsRest(tag, rest);
        match TakeFields(tag, rest)
        case Malformed =>
          return Corrupt;
        case Got(i, rest') =>
          input, e := rest', Update(e, i);
    }
  }
}
