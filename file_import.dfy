/**
  `handleFileImport` (scripts/app.js:35-65): every imported file whose read
  succeeds, and whose EPUB metadata lookup settles, becomes one saved record;
  a failed read saves nothing, as no `onerror` is attached to the reader, and
  a metadata promise that never settles saves nothing, as neither its `.then`
  nor its `.catch` runs and no timeout bounds the wait. The title is the file
  name without its last dot-separated segment, replaced for EPUB types by a non-empty metadata title; the type is
  the declared MIME type, or `application/octet-stream` when none is declared.
  Reading the file and parsing EPUB metadata are I/O: their outcomes are
  fields of `FileEntry`, and the saves happen in file order.
 */
module FileImport {
  import opened Wrappers
  import opened JsString
  import opened Library

  const OctetStream: string := "application/octet-stream"

  /** What `book.loaded.metadata` did: resolved with a title (`""` when
      missing), rejected, never settled, or `ePub(arrayBuffer)` threw. */
  datatype MetadataOutcome = Metadata(title: string) | Rejected | Pending | Threw

  /** One selected file: its name, declared type, bytes, whether the
      `FileReader` completes (`onload` runs only then; there is no `onerror`),
      the EPUB metadata outcome (consulted for EPUB types only) and the clock
      when its save runs. */
  datatype FileEntry = FileEntry(name: string, declaredType: string, data: seq<byte>,
                                 loaded: bool, metadata: MetadataOutcome, savedAt: int)

  /** `name.split('.').slice(0, -1).join('.')`. */
  function DefaultTitle(name: string): string
  {
    var parts := Split(name, '.');
    Join(parts[..|parts| - 1], '.')
  }

  /** `file.type || 'application/octet-stream'`. */
  function ResolvedType(declaredType: string): string
  {
    if declaredType != "" then declaredType else OctetStream
  }

  /** The title saved for a file of type `mediaType`. */
  function ResolvedTitle(name: string, mediaType: string, metadata: MetadataOutcome): string
  {
    if Includes(mediaType, "epub") && metadata.Metadata? && metadata.title != "" then metadata.title
    else DefaultTitle(name)
  }

  /** A file reaches `saveBookToDB`: its read completes and, for an EPUB
      type, the metadata lookup throws or settles. */
  predicate Settles(f: FileEntry)
  {
    f.loaded && !(Includes(ResolvedType(f.declaredType), "epub") && f.metadata == Pending)
  }

  /** The arguments of the `saveBookToDB` call a settling file leads to. */
  function ImportedDraft(f: FileEntry): Draft
  {
    var mediaType := ResolvedType(f.declaredType);
    Draft(ResolvedTitle(f.name, mediaType, f.metadata), mediaType, f.data, Null, f.savedAt)
  }

  /** The saves for a file list: one per settling file, in file order. */
  function Drafts(files: seq<FileEntry>): seq<Draft>
    decreases |files|
  {
    if files == [] then []
    else
      var f := files[|files| - 1];
      Drafts(files[..|files| - 1]) + (if Settles(f) then [ImportedDraft(f)] else [])
  }

  /** The store after adding `drafts` one after the other. */
  function AddAll(st: StoreState, drafts: seq<Draft>): StoreState
    decreases |drafts|
  {
    if drafts == [] then st else AddAll(Added(st, drafts[0]).0, drafts[1..])
  }

  /** The default title is the name up to its last dot, or empty when the name has no dot. */
  lemma DefaultTitleDropsLastSegment(name: string)
    ensures LastIndexOf(name, '.') == -1 ==> DefaultTitle(name) == ""
    ensures LastIndexOf(name, '.') >= 0 ==> DefaultTitle(name) == name[..LastIndexOf(name, '.')]
  {
    var parts := Split(name, '.');
    var init, last := parts[..|parts| - 1], parts[|parts| - 1];
    if |parts| > 1 {
      assert parts == init + [last];
      JoinSplit(name, '.');
      JoinSnoc(init, last, '.');
      var k := |Join(init, '.')|;
      assert name == Join(init, '.') + ['.'] + last;
      assert name[k + 1..] == last;
      LastIndexOfUnique(name, '.', k);
    }
  }

  /** Only the final extension is stripped. */
  lemma DefaultTitleExample()
    ensures DefaultTitle("My Book.v2.txt") == "My Book.v2"
  {
    var name := "My Book.v2.txt";
    DefaultTitleDropsLastSegment(name);
    assert '.' !in name[11..];
    LastIndexOfUnique(name, '.', 10);
  }

  /** A name without a dot gives an empty title. */
  lemma DefaultTitleNoDot()
    ensures DefaultTitle("README") == ""
  {
    DefaultTitleDropsLastSegment("README");
  }

  /** A file's save: the declared type or the binary default, a non-empty
      metadata title only for EPUB types and otherwise the file-name title,
      the file's bytes, and no reading position yet. */
  lemma ImportedDraftSpec(f: FileEntry)
    ensures var d := ImportedDraft(f);
      && d.mediaType != ""
      && (f.declaredType != "" ==> d.mediaType == f.declaredType)
      && (f.declaredType == "" ==> d.mediaType == OctetStream && d.title == DefaultTitle(f.name))
      && (Includes(d.mediaType, "epub") && f.metadata.Metadata? && f.metadata.title != "" ==> d.title == f.metadata.title)
      && (!Includes(d.mediaType, "epub") ==> d.title == DefaultTitle(f.name))
      && (f.metadata in {Rejected, Threw, Metadata("")} ==> d.title == DefaultTitle(f.name))
      && d.data == f.data && d.lastRead == Null && d.timestamp == f.savedAt
  {
    if f.declaredType == "" {
      if Includes(OctetStream, "epub") {
        IncludesChar(OctetStream, "epub", 'u');
        assert false;
      }
    }
  }

  /** At most one save per file, and one for every file exactly when every file settles. */
  lemma {:induction false} DraftsCount(files: seq<FileEntry>)
    ensures |Drafts(files)| <= |files|
    ensures |Drafts(files)| == |files| <==> forall i :: 0 <= i < |files| ==> Settles(files[i])
    decreases |files|
  {
    if files != [] {
      var init := files[..|files| - 1];
      DraftsCount(init);
      assert forall i :: 0 <= i < |init| ==> init[i] == files[i];
    }
  }

  /** When every file settles, the `i`-th save is the `i`-th file's draft. */
  lemma {:induction false} DraftsAllSettled(files: seq<FileEntry>)
    requires forall i :: 0 <= i < |files| ==> Settles(files[i])
    ensures |Drafts(files)| == |files|
    ensures forall i :: 0 <= i < |files| ==> Drafts(files)[i] == ImportedDraft(files[i])
    decreases |files|
  {
    if files != [] {
      var init, f := files[..|files| - 1], files[|files| - 1];
      assert forall i :: 0 <= i < |init| ==> init[i] == files[i];
      DraftsAllSettled(init);
      assert Settles(f);
      var l := Drafts(init) + [ImportedDraft(f)];
      assert Drafts(files) == l;
      forall i | 0 <= i < |files|
        ensures l[i] == ImportedDraft(files[i])
      {
        if i < |init| {
          assert l[i] == Drafts(init)[i];
        }
      }
    }
  }

  /** The saves of two lists read one after the other are the saves of each, in order. */
  lemma {:induction false} DraftsAppend(a: seq<FileEntry>, b: seq<FileEntry>)
    ensures Drafts(a + b) == Drafts(a) + Drafts(b)
    decreases |b|
  {
    if b == [] {
      assert a + b == a;
    } else {
      var init, f := b[..|b| - 1], b[|b| - 1];
      DraftsAppend(a, init);
      assert (a + b)[..|a + b| - 1] == a + init;
      assert (a + b)[|a + b| - 1] == f;
    }
  }

  /** A file that does not settle adds nothing to the saves, wherever it is in the list. */
  lemma DraftsSkipUnsettled(a: seq<FileEntry>, f: FileEntry, b: seq<FileEntry>)
    requires !Settles(f)
    ensures Drafts(a + [f] + b) == Drafts(a + b)
  {
    DraftsAppend(a + [f], b);
    DraftsAppend(a, b);
    assert (a + [f])[..|a|] == a;
  }

  lemma {:induction false} AddAllSnoc(st: StoreState, drafts: seq<Draft>, d: Draft)
    ensures AddAll(st, drafts + [d]) == Added(AddAll(st, drafts), d).0
    decreases |drafts|
  {
    if drafts != [] {
      assert (drafts + [d])[1..] == drafts[1..] + [d];
      AddAllSnoc(Added(st, drafts[0]).0, drafts[1..], d);
    }
  }

  /** Until the key generator runs out, adding `n` drafts keeps the store
      valid, advances the generator by `n`, adds `n` records and keeps every old one. */
  lemma {:induction false} AddAllKeepsRecords(st: StoreState, drafts: seq<Draft>)
    requires Valid(st)
    requires st.current - 1 + |drafts| <= MaxGeneratedKey
    ensures Valid(AddAll(st, drafts))
    ensures AddAll(st, drafts).current == st.current + |drafts|
    ensures |AddAll(st, drafts).records| == |st.records| + |drafts|
    ensures forall k :: k in st.records ==> k in AddAll(st, drafts).records && AddAll(st, drafts).records[k] == st.records[k]
    decreases |drafts|
  {
    if drafts != [] {
      var d, rest := drafts[0], drafts[1..];
      AddFresh(st, d);
      var next := Added(st, d).0;
      AddAllKeepsRecords(next, rest);
      assert AddAll(st, drafts) == AddAll(next, rest);
    }
  }

  /** Until the key generator runs out, the `i`-th draft is stored under the
      `i`-th key from the generator's current number on (keys that `Valid` keeps free). */
  lemma {:induction false} AddAllRecordAt(st: StoreState, drafts: seq<Draft>, i: nat)
    requires Valid(st)
    requires st.current - 1 + |drafts| <= MaxGeneratedKey
    requires i < |drafts|
    ensures st.current + i in AddAll(st, drafts).records
    ensures AddAll(st, drafts).records[st.current + i] == WithKey(drafts[i], st.current + i)
    decreases i
  {
    var d, rest := drafts[0], drafts[1..];
    AddFresh(st, d);
    var next := Added(st, d).0;
    assert AddAll(st, drafts) == AddAll(next, rest);
    if i == 0 {
      assert st.current in next.records;
      AddAllKeepsRecords(next, rest);
    } else {
      AddAllRecordAt(next, rest, i - 1);
      assert rest[i - 1] == drafts[i];
    }
  }

  /** The `reader.onload` callback for one file: derive the title and type,
      then save once, whichever way the EPUB metadata lookup ends; nothing is
      saved when the read fails or the lookup never ends. */
  method ImportFile(store: BookStore, file: FileEntry) returns (saved: Option<Draft>)
    requires Valid(store.State())
    modifies store
    ensures saved.Some? <==> Settles(file)
    ensures saved.Some? ==>
      && saved.value == ImportedDraft(file)
      && store.State() == Added(old(store.State()), saved.value).0
    ensures saved.None? ==> store.State() == old(store.State())
    ensures Valid(store.State())
  {
    if !file.loaded {
      return None;
    }
    var title := DefaultTitle(file.name);
    var mediaType := if file.declaredType != "" then file.declaredType else OctetStream;
    if Includes(mediaType, "epub") {
      match file.metadata
      case Metadata(t) =>
        if t != "" {
          title := t;
        }
      case Rejected =>
      case Pending =>
        return None;
      case Threw =>
    }
    store.SaveBook(file.data, title, mediaType, file.savedAt);
    saved := Some(Draft(title, mediaType, file.data, Null, file.savedAt));
  }

  /** An empty or missing file list saves nothing; otherwise every settling
      file leads to exactly one save, in file order. */
  method HandleFileImport(store: BookStore, files: Option<seq<FileEntry>>) returns (saves: seq<Draft>)
    requires Valid(store.State())
    modifies store
    ensures files.None? ==> saves == []
    ensures files.Some? ==> saves == Drafts(files.value)
    ensures store.State() == AddAll(old(store.State()), saves)
    ensures Valid(store.State())
  {
    saves := [];
    if files.None? || |files.value| == 0 {
      return;
    }
    var fs := files.value;
    for i := 0 to |fs|
      invariant saves == Drafts(fs[..i])
      invariant store.State() == AddAll(old(store.State()), saves)
      invariant Valid(store.State())
    {
      assert fs[..i + 1][..i] == fs[..i];
      var saved := ImportFile(store, fs[i]);
      if saved.Some? {
        AddAllSnoc(old(store.State()), saves, saved.value);
        saves := saves + [saved.value];
      }
    }
    assert fs[..|fs|] == fs;
  }
}
