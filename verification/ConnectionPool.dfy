/** One database context per thread (src/frontend/DBConnectionPool.cpp). */
module ConnectionPool {
  /** The map m_thread_contexts in key order; contexts are numbered as they are opened. */
  datatype Entry = Entry(thread: nat, context: nat)

  predicate Sorted(entries: seq<Entry>) {
    forall i, j :: 0 <= i < j < |entries| ==> entries[i].thread < entries[j].thread
  }

  /** No context is shared, and all are among the first n. */
  predicate Unshared(entries: seq<Entry>, n: nat) {
    && (forall i :: 0 <= i < |entries| ==> entries[i].context < n)
    && (forall i, j :: 0 <= i < j < |entries| ==> entries[i].context != entries[j].context)
  }

  /** The context of a thread. */
  ghost predicate Has(entries: seq<Entry>, thread: nat, context: nat) {
    exists i :: 0 <= i < |entries| && entries[i] == Entry(thread, context)
  }

  /** A thread has at most one context, and a context belongs to at most one thread. */
  lemma OneToOne(entries: seq<Entry>, n: nat, thread: nat, context: nat, thread': nat, context': nat)
    requires Sorted(entries) && Unshared(entries, n)
    requires Has(entries, thread, context) && Has(entries, thread', context')
    ensures thread == thread' <==> context == context'
  {
    var i :| 0 <= i < |entries| && entries[i] == Entry(thread, context);
    var j :| 0 <= j < |entries| && entries[j] == Entry(thread', context');
    assert i < j ==> thread < thread' && context != context';
    assert j < i ==> thread' < thread && context != context';
  }

  function Inserted(entries: seq<Entry>, at: nat, entry: Entry): (now: seq<Entry>)
    requires at <= |entries|
    ensures |now| == |entries| + 1
    ensures forall i :: 0 <= i < |now| ==>
      now[i] == if i < at then entries[i] else if i == at then entry else entries[i - 1]
  {
    entries[..at] + [entry] + entries[at..]
  }

  lemma InsertedOrder(entries: seq<Entry>, at: nat, entry: Entry, n: nat)
    requires at <= |entries| && Sorted(entries) && Unshared(entries, n) && entry.context == n
    requires forall i :: 0 <= i < at ==> entries[i].thread < entry.thread
    requires at < |entries| ==> entry.thread < entries[at].thread
    ensures Sorted(Inserted(entries, at, entry)) && Unshared(Inserted(entries, at, entry), n + 1)
  {
    var now := Inserted(entries, at, entry);
    assert forall i :: 0 <= i < |now| ==>
      now[i] == if i < at then entries[i] else if i == at then entry else entries[i - 1];
    hide Inserted;
  }

  lemma InsertedEntries(entries: seq<Entry>, at: nat, entry: Entry)
    requires at <= |entries|
    ensures forall thread, context :: Has(Inserted(entries, at, entry), thread, context)
                                 <==> Has(entries, thread, context) || Entry(thread, context) == entry
  {
    var now := Inserted(entries, at, entry);
    hide Inserted;
    forall thread, context
      ensures Has(now, thread, context) <==> Has(entries, thread, context) || Entry(thread, context) == entry
    {
      if i :| 0 <= i < |entries| && entries[i] == Entry(thread, context) {
        assert now[if i < at then i else i + 1] == entries[i];
      } else {
        assert now[at] == entry;
      }
    }
  }

  class DBConnectionPool {
    var entries: seq<Entry>
    var count: nat

    ghost predicate Valid()
      reads this
    {
      Sorted(entries) && Unshared(entries, count)
    }

    constructor ()
      ensures Valid() && entries == [] && count == 0
    {
      entries, count := [], 0;
    }

    /** std::map::lower_bound: the first entry that is not below the thread. */
    method LowerBound(thread: nat) returns (it: nat)
      requires Valid()
      ensures it <= |entries|
      ensures forall i :: 0 <= i < it ==> entries[i].thread < thread
      ensures it < |entries| ==> entries[it].thread >= thread
    {
      it := 0;
      while it < |entries| && entries[it].thread < thread
        invariant it <= |entries|
        invariant forall i :: 0 <= i < it ==> entries[i].thread < thread
      {
        it := it + 1;
      }
    }

    /** getConnection. It compares the key at the iterator without asking whether the iterator is at
        the end; beyond is what a read beyond the end happens to give. If that is not this thread,
        the calling thread gets its own context: the one it had, or a new one; and no other thread's
        context changes. */
    method GetConnection(thread: nat, beyond: Entry) returns (context: nat)
      requires Valid()
      modifies this
      ensures Valid()
      ensures var stray :=
          beyond.thread == thread && forall i :: 0 <= i < |old(entries)| ==> old(entries)[i].thread < thread;
        if stray then context == beyond.context && entries == old(entries) && count == old(count)
        else
          && Has(entries, thread, context)
          && (forall t, c :: Has(entries, t, c) <==> Has(old(entries), t, c) || (t == thread && c == context))
          && (count == old(count) <==> exists c :: Has(old(entries), thread, c))
    {
      var it := LowerBound(thread);
      var found := if it < |entries| then entries[it] else beyond;
      if found.thread == thread {
        context := found.context;
        if it < |entries| {
          SameContext(entries, count, it);
        }
      } else {
        context := count;
        InsertedOrder(entries, it, Entry(thread, context), count);
        InsertedEntries(entries, it, Entry(thread, context));
        NotThere(entries, it, thread);
        entries := Inserted(entries, it, Entry(thread, context));
        count := count + 1;
      }
    }
  }

  lemma SameContext(entries: seq<Entry>, n: nat, i: nat)
    requires Sorted(entries) && Unshared(entries, n) && i < |entries|
    ensures Has(entries, entries[i].thread, entries[i].context)
    ensures forall c :: Has(entries, entries[i].thread, c) ==> c == entries[i].context
  {
    assert entries[i] == Entry(entries[i].thread, entries[i].context);
  }

  lemma NotThere(entries: seq<Entry>, at: nat, thread: nat)
    requires Sorted(entries) && at <= |entries|
    requires forall i :: 0 <= i < at ==> entries[i].thread < thread
    requires at < |entries| ==> thread < entries[at].thread
    ensures forall c :: !Has(entries, thread, c)
  {
  }
}
