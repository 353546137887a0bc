/**
  The `books` object store of the `eReaderDB` database (scripts/app.js:1-33,
  236-246): book records keyed by `id`, with a key generator that assigns
  ids. The generator follows section 2.11 (Key generators) of the W3C
  Indexed Database API: its current number starts at 1, a generated key is
  the current number, which then goes up by one, generation fails once the
  current number is above 2^53, and storing a record under an explicit
  numeric key at or above the current number moves the current number past it.
  Store operations are atomic steps; transactions and their callbacks are not modelled.
 */
module Library {
  import opened Wrappers

  newtype byte = x: int | 0 <= x < 256

  /** The `last_read_cfi` field: `null`, an EPUB location string, or a text scroll offset. */
  datatype Position = Null | Locator(cfi: string) | ScrollOffset(px: int)

  /** JavaScript truthiness of a position: `null`, `""` and `0` are falsy. */
  predicate Truthy(p: Position)
  {
    match p
    case Null => false
    case Locator(cfi) => cfi != ""
    case ScrollOffset(px) => px != 0
  }

  /** A stored book: the object put in the store, with the key injected as `id`. */
  datatype Book = Book(id: int, title: string, mediaType: string, data: seq<byte>,
                       lastRead: Position, timestamp: int)

  /** A record value handed to `add`, before the store gives it a key. */
  datatype Draft = Draft(title: string, mediaType: string, data: seq<byte>,
                         lastRead: Position, timestamp: int)

  /** The record `add` stores for `d` under `key`. */
  function WithKey(d: Draft, key: int): Book
  {
    Book(key, d.title, d.mediaType, d.data, d.lastRead, d.timestamp)
  }

  datatype StoreError = ConstraintError

  /** The records by key, and the key generator's current number. */
  datatype StoreState = StoreState(records: map<int, Book>, current: int)

  /** 2^53, the largest key a key generator hands out. */
  const MaxGeneratedKey: int := 0x20_0000_0000_0000

  /** Every key lies below the generator's current number and is the record's own `id`. */
  predicate Valid(st: StoreState)
  {
    && 1 <= st.current <= MaxGeneratedKey + 1
    && forall k :: k in st.records ==> 1 <= k < st.current && st.records[k].id == k
  }

  /** The store as `createObjectStore('books', { keyPath: 'id', autoIncrement: true })` leaves it. */
  function Created(): (st: StoreState)
    ensures Valid(st) && st.records == map[]
  {
    StoreState(map[], 1)
  }

  /** `store.add(value)` with a generated key: fails when the generator is
      exhausted or the key is taken, else stores the value under the new key. */
  function Added(st: StoreState, d: Draft): (StoreState, Result<int, StoreError>)
  {
    if st.current > MaxGeneratedKey then (st, Err(ConstraintError))
    else if st.current in st.records then (st, Err(ConstraintError))
    else
      var key := st.current;
      (StoreState(st.records[key := WithKey(d, key)], key + 1), Ok(key))
  }

  /** `store.get(id)`. */
  function Lookup(st: StoreState, id: int): Option<Book>
  {
    if id in st.records then Some(st.records[id]) else None
  }

  /** `store.put(book)` with the in-line key `book.id`: overwrites or inserts,
      and moves the generator past an explicit key at or above its current number. */
  function Replaced(st: StoreState, book: Book): StoreState
  {
    var value := if book.id < MaxGeneratedKey then book.id else MaxGeneratedKey;
    StoreState(st.records[book.id := book],
               if value >= st.current then value + 1 else st.current)
  }

  /** `saveProgression`: read the record, set `last_read_cfi`, put it back.
      A missing record makes `book.last_read_cfi` throw before `put`. */
  function Progressed(st: StoreState, id: int, position: Position): StoreState
  {
    match Lookup(st, id)
    case None => st
    case Some(book) => Replaced(st, book.(lastRead := position))
  }

  /** `store.getAll()`: the records in ascending key order. */
  function Listing(st: StoreState): seq<Book>
  {
    ListFrom(st, 1)
  }

  function ListFrom(st: StoreState, k: int): seq<Book>
    decreases st.current - k
  {
    if k >= st.current then []
    else if k in st.records then [st.records[k]] + ListFrom(st, k + 1)
    else ListFrom(st, k + 1)
  }

  /** A successful add stores exactly one new record, under a key that was
      free, with the draft's fields and its key as `id`; nothing else changes. */
  lemma AddFresh(st: StoreState, d: Draft)
    requires Valid(st)
    ensures var (st', r) := Added(st, d);
      && (r.Err? <==> st.current > MaxGeneratedKey)
      && (r.Err? ==> st' == st)
      && (r.Ok? ==>
            && r.value !in st.records
            && st'.records == st.records[r.value := WithKey(d, r.value)]
            && st'.records[r.value].lastRead == d.lastRead
            && |st'.records| == |st.records| + 1
            && Valid(st'))
  {
  }

  /** `put` of an existing record changes that record only and keeps the store valid. */
  lemma PutExisting(st: StoreState, book: Book)
    requires Valid(st) && book.id in st.records
    ensures Replaced(st, book).current == st.current
    ensures Replaced(st, book).records == st.records[book.id := book]
    ensures Valid(Replaced(st, book))
  {
  }

  /** Saving a position changes only `lastRead` of record `id`; with no such record nothing changes. */
  lemma SaveProgressionFrame(st: StoreState, id: int, position: Position)
    requires Valid(st)
    ensures var st' := Progressed(st, id, position);
      && Valid(st')
      && st'.current == st.current
      && st'.records.Keys == st.records.Keys
      && (forall k :: k in st.records && k != id ==> st'.records[k] == st.records[k])
      && (id in st.records ==> st'.records[id] == st.records[id].(lastRead := position))
      && (id !in st.records ==> st' == st)
  {
    if id in st.records {
      PutExisting(st, st.records[id].(lastRead := position));
    }
  }

  /** Reading back a saved position gives exactly the value written, and
      reading a missing id finds nothing, before and after. */
  lemma SaveProgressionRoundTrip(st: StoreState, id: int, position: Position)
    requires Valid(st)
    ensures id in st.records ==>
      && Lookup(Progressed(st, id, position), id).Some?
      && Lookup(Progressed(st, id, position), id).value.lastRead == position
    ensures id !in st.records ==> Lookup(Progressed(st, id, position), id) == None
  {
    SaveProgressionFrame(st, id, position);
  }

  /** Every entry of `l` is the record stored under its `id`, and the ids ascend strictly. */
  predicate ListsRecords(st: StoreState, l: seq<Book>)
  {
    && (forall i :: 0 <= i < |l| ==> l[i].id in st.records && st.records[l[i].id] == l[i])
    && (forall i, j :: 0 <= i < j < |l| ==> l[i].id < l[j].id)
  }

  /** What `ListFrom(st, k)` holds: exactly the records with keys from `k` on, in ascending key order. */
  lemma {:induction false} ListFromSpec(st: StoreState, k: int)
    requires Valid(st) && 1 <= k
    ensures forall i :: 0 <= i < |ListFrom(st, k)| ==> k <= ListFrom(st, k)[i].id
    ensures ListsRecords(st, ListFrom(st, k))
    ensures forall key :: key in st.records && k <= key ==> st.records[key] in ListFrom(st, k)
    decreases st.current - k
  {
    if k < st.current {
      ListFromSpec(st, k + 1);
      var rest := ListFrom(st, k + 1);
      if k in st.records {
        var l := [st.records[k]] + rest;
        assert ListFrom(st, k) == l;
        assert forall i :: 0 < i < |l| ==> l[i] == rest[i - 1];
      } else {
        assert ListFrom(st, k) == rest;
      }
    }
  }

  /** `getAll` lists every record exactly once, ordered by key. */
  lemma ListingSpec(st: StoreState)
    requires Valid(st)
    ensures ListsRecords(st, Listing(st))
    ensures forall key :: key in st.records ==> st.records[key] in Listing(st)
  {
    ListFromSpec(st, 1);
    assert Listing(st) == ListFrom(st, 1);
  }

  /** The object store, updated in place. */
  class BookStore {
    var records: map<int, Book>
    var current: int

    function State(): StoreState
      reads this
    {
      StoreState(records, current)
    }

    /** `initializeIndexedDB` on first run: an empty store with a fresh key generator. */
    constructor ()
      ensures State() == Created()
      ensures Valid(State())
    {
      records := map[];
      current := 1;
    }

    method Add(d: Draft) returns (r: Result<int, StoreError>)
      requires Valid(State())
      modifies this
      ensures (State(), r) == Added(old(State()), d)
      ensures Valid(State())
    {
      AddFresh(State(), d);
      if current > MaxGeneratedKey || current in records {
        r := Err(ConstraintError);
        return;
      }
      var key := current;
      current := current + 1;
      records := records[key := WithKey(d, key)];
      r := Ok(key);
    }

    method Get(id: int) returns (r: Option<Book>)
      ensures r.Some? <==> id in records
      ensures r.Some? ==> r.value == records[id]
      ensures r == Lookup(State(), id)
    {
      if id in records {
        r := Some(records[id]);
      } else {
        r := None;
      }
    }

    /** Only ever called with a record just read from the store. */
    method Put(book: Book)
      requires Valid(State()) && book.id in records
      modifies this
      ensures State() == Replaced(old(State()), book)
      ensures current == old(current) && records == old(records)[book.id := book]
      ensures Valid(State())
    {
      PutExisting(State(), book);
      // an existing key lies below the generator's current number, which `put` then leaves as it is
      records := records[book.id := book];
    }

    method GetAll() returns (books: seq<Book>)
      ensures books == Listing(State())
    {
      books := [];
      var k := current - 1;
      while k >= 1
        invariant k <= current - 1
        invariant k >= 0 || k == current - 1
        invariant books == ListFrom(State(), k + 1)
        decreases k
      {
        if k in records {
          books := [records[k]] + books;
        }
        k := k - 1;
      }
    }

    /** `saveBookToDB(bookData, title, type)`: add a record with no position
        yet; a failed `add` goes unnoticed, as no error handler is attached. */
    method SaveBook(data: seq<byte>, title: string, mediaType: string, now: int)
      requires Valid(State())
      modifies this
      ensures State() == Added(old(State()), Draft(title, mediaType, data, Null, now)).0
      ensures Valid(State())
    {
      var _ := Add(Draft(title, mediaType, data, Null, now));
    }

    /** `saveProgression(position)` for the record `id`. */
    method SaveProgression(id: int, position: Position)
      requires Valid(State())
      modifies this
      ensures State() == Progressed(old(State()), id, position)
      ensures Valid(State())
    {
      SaveProgressionFrame(State(), id, position);
      var book := Get(id);
      if book.None? {
        return;
      }
      Put(book.value.(lastRead := position));
    }
  }
}
