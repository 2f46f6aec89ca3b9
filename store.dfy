/** The local records file: a JSON list that `appendToLocalFile` reads, extends by one record
    and writes back whole, and that the recent-records endpoint reads from the end. */
module Store {
  import opened Wrappers
  import opened Records

  /** The window of the recent-records endpoint, `records.slice(-20)`. */
  const RecentWindow: nat := 20

  /** The elements of `s` in the opposite order, `Array.prototype.reverse`. */
  function Reverse<T>(s: seq<T>): seq<T> {
    if s == [] then [] else Reverse(s[1..]) + [s[0]]
  }

  lemma {:induction false} ReverseAt<T>(s: seq<T>, k: nat)
    requires k < |s|
    ensures |Reverse(s)| == |s| && Reverse(s)[k] == s[|s| - 1 - k]
  {
    ReverseLength(s);
    if k < |s| - 1 {
      ReverseAt(s[1..], k);
    }
  }

  lemma {:induction false} ReverseLength<T>(s: seq<T>)
    ensures |Reverse(s)| == |s|
  {
    if s != [] {
      ReverseLength(s[1..]);
    }
  }

  /** The last `n` records (all of them when there are fewer), newest first;
      `records.slice(-n).reverse()` for `n >= 1` (`slice(-0)` would be the whole list). */
  function RecentView(records: seq<Record>, n: nat): (v: seq<Record>)
    ensures |v| == if |records| < n then |records| else n
    ensures forall i :: 0 <= i < |v| ==> v[i] == records[|records| - 1 - i]
  {
    var start := if |records| < n then 0 else |records| - n;
    var tail := records[start..];
    ReverseLength(tail);
    forall i | 0 <= i < |tail| ensures Reverse(tail)[i] == records[|records| - 1 - i] {
      ReverseAt(tail, i);
    }
    Reverse(tail)
  }

  /** Appending one record puts it first in the view and shifts the rest of the window by one. */
  lemma AppendThenRecent(records: seq<Record>, r: Record, n: nat)
    requires n >= 1
    ensures RecentView(records + [r], n) == [r] + RecentView(records, n - 1)
  {
    var after := RecentView(records + [r], n);
    var before := RecentView(records, n - 1);
    assert |after| == |[r] + before|;
    forall i | 0 <= i < |after| ensures after[i] == ([r] + before)[i] {
      if i > 0 {
        assert before[i - 1] == records[|records| - 1 - (i - 1)];
      }
    }
  }

  /** The records file. `readable` stands for the file existing and holding a JSON list;
      when it does not, every read and write of it fails. */
  class LocalRecordFile {
    var records: seq<Record>
    var readable: bool

    constructor (initial: seq<Record>)
      ensures records == initial && readable
    {
      records := initial;
      readable := true;
    }

    /** The recent-records view of the current contents. */
    function Recent(n: nat): (v: seq<Record>)
      reads this
      ensures |v| == if |records| < n then |records| else n
      ensures n >= 1 && records != [] ==> v[0] == records[|records| - 1]
    {
      RecentView(records, n)
    }

    /** `appendToLocalFile(record)`: read the list, push the record on its end, write it back.
        `written` is whether the write succeeds once the read has. `ok` is false when the file
        cannot be read or written, and then the list is left as it was. */
    method Append(record: Record, written: bool) returns (ok: bool)
      modifies this
      ensures ok == (old(readable) && written) && readable == old(readable)
      ensures records == if ok then old(records) + [record] else old(records)
    {
      if !readable {
        return false;
      }
      var existing := records;
      existing := existing + [record];
      if !written {
        return false;
      }
      records := existing;
      return true;
    }

    /** The read half of `GET /api/records/local`: `None` when the file cannot be read, else the
        newest `RecentWindow` records, newest first. Nothing is changed. */
    method ReadRecent() returns (view: Option<seq<Record>>)
      ensures view.Some? <==> readable
      ensures view.Some? ==> |view.value| == (if |records| < RecentWindow then |records| else RecentWindow)
      ensures view.Some? ==> forall i :: 0 <= i < |view.value| ==> view.value[i] == records[|records| - 1 - i]
    {
      if !readable {
        return None;
      }
      return Some(Recent(RecentWindow));
    }
  }

  /** Append-then-read: after a successful write the record heads the recent view and the
      store holds exactly one more record; after a failed one the store is as it was. */
  method AppendThenReadRecent(store: LocalRecordFile, record: Record, written: bool) returns (view: Option<seq<Record>>)
    requires store.readable
    modifies store
    ensures store.records == if written then old(store.records) + [record] else old(store.records)
    ensures view.Some? && (written ==> view.value != [] && view.value[0] == record)
  {
    var ok := store.Append(record, written);
    view := store.ReadRecent();
  }
}
