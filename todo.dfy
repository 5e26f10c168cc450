/** The in-memory to-do list: an ordered sequence of items, each with a task
    text, a done flag and two timestamps.  Positions seen by callers are
    1-based. */
module Todo {

  /** A timestamp, reduced to the four observations the list and its table
      make of it: unix seconds and the calendar day, hour and minute.  The
      fields are independent integers; nothing ties them together. */
  datatype Timestamp = Timestamp(unix: int, day: int, hour: int, minute: int)

  /** One to-do entry.  `completedAt` holds the second clock reading of Add
      until the item is completed. */
  datatype Item = Item(task: string, done: bool, createdAt: Timestamp, completedAt: Timestamp)

  /** The result of Complete and Delete. */
  datatype Status = Ok | InvalidIndex | AlreadyCompleted

  /** What reading the storage file produced. */
  newtype byte = x: int | 0 <= x < 256
  datatype ReadResult = Missing | ReadFailed | Bytes(data: seq<byte>)

  /** What decoding non-empty file contents produced. */
  datatype Decoded = Decoded(items: seq<Item>) | Malformed

  /** The result of Load. */
  datatype LoadStatus = Loaded | ReadError | DecodeError

  /** True when `idx` is a valid 1-based position in `s`. */
  predicate InRange(s: seq<Item>, idx: int) {
    1 <= idx <= |s|
  }

  /** 1 for an item still pending, 0 for a done one. */
  function Weight(it: Item): nat {
    if it.done then 0 else 1
  }

  /** The number of items of `s` that are not done. */
  function Pending(s: seq<Item>): (n: nat)
    ensures n <= |s|
  {
    if s == [] then 0 else Weight(s[0]) + Pending(s[1..])
  }

  lemma {:induction false} PendingConcat(a: seq<Item>, b: seq<Item>)
    ensures Pending(a + b) == Pending(a) + Pending(b)
  {
    if a == [] {
      assert a + b == b;
    } else {
      assert (a + b)[1..] == a[1..] + b;
      PendingConcat(a[1..], b);
    }
  }

  /** Appending an item adds its weight to the pending count. */
  lemma {:induction false} PendingAppend(s: seq<Item>, it: Item)
    ensures Pending(s + [it]) == Pending(s) + Weight(it)
  {
    PendingConcat(s, [it]);
    assert [it][1..] == [];
  }

  /** Prepending an item adds its weight to the pending count. */
  lemma {:induction false} PendingCons(it: Item, s: seq<Item>)
    ensures Pending([it] + s) == Weight(it) + Pending(s)
  {
    assert ([it] + s)[1..] == s;
  }

  /** Replacing one item changes the pending count by the difference of weights. */
  lemma {:induction false} PendingReplace(s: seq<Item>, k: nat, it: Item)
    requires k < |s|
    ensures Pending(s[k := it]) + Weight(s[k]) == Pending(s) + Weight(it)
  {
    var a, b := s[..k], s[k+1..];
    assert s == a + ([s[k]] + b);
    assert s[k := it] == a + ([it] + b);
    PendingConcat(a, [s[k]] + b);
    PendingConcat(a, [it] + b);
    PendingCons(s[k], b);
    PendingCons(it, b);
  }

  /** The pending count is zero exactly when every item is done. */
  lemma {:induction false} PendingZeroIffAllDone(s: seq<Item>)
    ensures Pending(s) == 0 <==> forall i | 0 <= i < |s| :: s[i].done
  {
    if s != [] {
      PendingZeroIffAllDone(s[1..]);
      assert forall i | 1 <= i < |s| :: s[i] == s[1..][i - 1];
    }
  }

  /** The pending count equals the length exactly when no item is done. */
  lemma {:induction false} PendingFullIffNoneDone(s: seq<Item>)
    ensures Pending(s) == |s| <==> forall i | 0 <= i < |s| :: !s[i].done
  {
    if s != [] {
      PendingFullIffNoneDone(s[1..]);
      assert forall i | 1 <= i < |s| :: s[i] == s[1..][i - 1];
    }
  }

  /** `s` with the item at 0-based position `k` removed and the later items
      moved down by one. */
  function Without(s: seq<Item>, k: nat): (r: seq<Item>)
    requires k < |s|
    ensures |r| == |s| - 1
    ensures forall j | 0 <= j < k :: r[j] == s[j]
    ensures forall j | k <= j < |r| :: r[j] == s[j + 1]
    ensures multiset(r) + multiset{s[k]} == multiset(s)
  {
    assert s == s[..k] + [s[k]] + s[k+1..];
    s[..k] + s[k+1..]
  }

  /** Removing an item takes its weight off the pending count. */
  lemma {:induction false} PendingWithout(s: seq<Item>, k: nat)
    requires k < |s|
    ensures Pending(Without(s, k)) + Weight(s[k]) == Pending(s)
  {
    var a, b := s[..k], s[k+1..];
    assert Without(s, k) == a + b;
    assert s == a + ([s[k]] + b);
    PendingConcat(a, [s[k]] + b);
    PendingCons(s[k], b);
    PendingConcat(a, b);
  }

  /** The list of to-do items, updated in place by its methods. */
  class Todos {
    var items: seq<Item>

    constructor ()
      ensures items == []
    {
      items := [];
    }

    /** Appends a pending item.  `created` and `completed` are the two clock
        readings Add takes, in that order. */
    method Add(task: string, created: Timestamp, completed: Timestamp)
      modifies this
      ensures items == old(items) + [Item(task, false, created, completed)]
      ensures Pending(items) == Pending(old(items)) + 1
    {
      PendingAppend(items, Item(task, false, created, completed));
      items := items + [Item(task, false, created, completed)];
    }

    /** Marks the item at 1-based position `idx` done, completed at `now`. */
    method Complete(idx: int, now: Timestamp) returns (st: Status)
      modifies this
      ensures st == InvalidIndex <==> !InRange(old(items), idx)
      ensures st == AlreadyCompleted <==> InRange(old(items), idx) && old(items)[idx - 1].done
      ensures st == Ok ==> items == old(items)[idx - 1 := old(items)[idx - 1].(done := true, completedAt := now)]
      ensures st != Ok ==> items == old(items)
      ensures st == Ok ==> Pending(items) == Pending(old(items)) - 1
      ensures InRange(items, idx) ==> items[idx - 1].done
    {
      if idx <= 0 || idx > |items| {
        return InvalidIndex;
      }
      if items[idx - 1].done {
        return AlreadyCompleted;
      }
      var it := items[idx - 1].(completedAt := now);
      it := it.(done := true);
      PendingReplace(items, idx - 1, it);
      items := items[idx - 1 := it];
      st := Ok;
    }

    /** Removes the item at 1-based position `idx`; later items move down. */
    method Delete(idx: int) returns (st: Status)
      modifies this
      ensures st == Ok <==> InRange(old(items), idx)
      ensures st != Ok ==> st == InvalidIndex && items == old(items)
      ensures st == Ok ==> items == old(items)[..idx - 1] + old(items)[idx..]
      ensures st == Ok ==> items == Without(old(items), idx - 1)
      ensures st == Ok ==> Pending(items) + Weight(old(items)[idx - 1]) == Pending(old(items))
    {
      if idx <= 0 || idx > |items| {
        return InvalidIndex;
      }
      PendingWithout(items, idx - 1);
      items := items[..idx - 1] + items[idx..];
      st := Ok;
    }

    /** Counts the items that are not done. */
    method CountPending() returns (total: nat)
      ensures total == Pending(items)
      ensures total <= |items|
      ensures total == 0 <==> forall i | 0 <= i < |items| :: items[i].done
    {
      total := 0;
      var i := 0;
      while i < |items|
        invariant 0 <= i <= |items|
        invariant total == Pending(items[..i])
      {
        assert items[..i + 1] == items[..i] + [items[i]];
        PendingAppend(items[..i], items[i]);
        if !items[i].done {
          total := total + 1;
        }
        i := i + 1;
      }
      assert items[..i] == items;
      PendingZeroIffAllDone(items);
    }

    /** Loads the list from the result of reading its storage file.  A missing
        file and an empty file leave the list as it is, without error; any
        other contents replace the list with what `unmarshal` decodes. */
    method Load(read: ReadResult, unmarshal: seq<byte> -> Decoded) returns (st: LoadStatus)
      modifies this
      ensures st == ReadError <==> read.ReadFailed?
      ensures st == DecodeError <==> read.Bytes? && |read.data| > 0 && unmarshal(read.data).Malformed?
      ensures st == Loaded && read.Bytes? && |read.data| > 0 ==> items == unmarshal(read.data).items
      ensures !(st == Loaded && read.Bytes? && |read.data| > 0) ==> items == old(items)
    {
      match read
      case Missing =>
        return Loaded;
      case ReadFailed =>
        return ReadError;
      case Bytes(data) =>
        if |data| == 0 {
          return Loaded;
        }
        var decoded := unmarshal(data);
        if decoded.Malformed? {
          return DecodeError;
        }
        items := decoded.items;
        st := Loaded;
    }
  }

  /** Start empty, add two tasks, complete the first (twice), delete the
      second: one task is left, "buy milk", done, and nothing is pending. */
  method Scenario(c1: Timestamp, c2: Timestamp, c3: Timestamp, c4: Timestamp, now: Timestamp)
    returns (final: seq<Item>, pending: nat, again: Status)
    ensures |final| == 1
    ensures final[0] == Item("buy milk", true, c1, now)
    ensures pending == 0
    ensures again == AlreadyCompleted
  {
    var t := new Todos();
    t.Add("buy milk", c1, c2);
    t.Add("write spec", c3, c4);
    var st := t.Complete(1, now);
    again := t.Complete(1, now);
    st := t.Delete(2);
    final := t.items;
    pending := t.CountPending();
  }
}
