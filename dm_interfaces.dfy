// Abstract models of what the table compiler calls but does not define:
// the table object (dm_create_table, dm_table_add_target, dm_table_complete,
// dm_put_table and the error list of dmfs_add_error), the target-type
// registry with its constructor and destructor callbacks, and the page
// allocator that supplies the scratch page. Their outcomes are opaque and
// come in as arguments, and each contract states only the effect its
// caller sees. dm_put_table is a bare reference decrement: destroying a
// table at its last reference, with the destructor and target-type put of
// each segment, is not part of this model (see the `Table.Put` line under
// "Left out" in the README).

module DmInterfaces {
  import opened DmTypes

  /** A device-mapper table under construction, with the error list kept beside it. */
  class Table {
    var highs: seq<Offset>
    var targets: seq<Target>
    var errors: seq<ErrorRecord>
    var refCount: nat
    var complete: bool

    /** dm_create_table: an empty table holding one reference. */
    constructor ()
      ensures highs == [] && targets == [] && errors == []
      ensures refCount == 1 && !complete
    {
      highs, targets, errors := [], [], [];
      refCount, complete := 1, false;
    }

    /** dm_table_add_target: 0 and one more segment ending at `high`, or non-zero and no change. */
    method AddTarget(high: Offset, name: string, context: Context, ok: bool) returns (rv: int)
      modifies this`highs, this`targets
      ensures (rv == 0) == ok
      ensures highs == if ok then old(highs) + [high] else old(highs)
      ensures targets == if ok then old(targets) + [Target(name, context)] else old(targets)
    {
      if ok {
        highs := highs + [high];
        targets := targets + [Target(name, context)];
        rv := 0;
      } else {
        rv := -1;
      }
    }

    /** dmfs_add_error: append (num, msg) to the error list. */
    method AddError(num: nat, msg: string)
      modifies this`errors
      ensures errors == old(errors) + [ErrorRecord(num, msg)]
    {
      errors := errors + [ErrorRecord(num, msg)];
    }

    /** dm_table_complete: 0 and the table marked complete, or non-zero and no change. */
    method Complete(ok: bool) returns (rv: int)
      modifies this`complete
      ensures (rv == 0) == ok
      ensures complete == (old(complete) || ok)
    {
      if ok {
        complete := true;
        rv := 0;
      } else {
        rv := 1;
      }
    }

    /** dm_put_table: drop one reference. */
    method Put()
      requires refCount > 0
      modifies this`refCount
      ensures refCount == old(refCount) - 1
    {
      refCount := refCount - 1;
    }
  }

  /**
   * The target-type registry: the keys of `refs` are the registered type
   * names, the values their reference counts. `trace` records every call
   * into target-type code.
   */
  class Registry {
    var refs: map<string, nat>
    ghost var trace: seq<Call>

    constructor (types: map<string, nat>)
      ensures refs == types && trace == []
    {
      refs := types;
      trace := [];
    }

    /** dm_get_target_type: found exactly when registered; a hit takes a reference. */
    method Lookup(name: string) returns (found: bool)
      modifies this`refs, this`trace
      ensures found == (name in old(refs))
      ensures refs == if found then Hold(old(refs), name) else old(refs)
      ensures trace == old(trace) + [Call.Lookup(name, found)]
    {
      found := name in refs;
      if found {
        refs := Hold(refs, name);
      }
      trace := trace + [Call.Lookup(name, found)];
    }

    /** dm_put_target_type: give back a reference taken by Lookup. */
    method Put(name: string)
      requires name in refs && refs[name] > 0
      modifies this`refs, this`trace
      ensures refs == Drop(old(refs), name)
      ensures trace == old(trace) + [Call.Put(name)]
    {
      refs := Drop(refs, name);
      trace := trace + [Call.Put(name)];
    }

    /** ttype->ctr: 0 and a new context, or the callback's non-zero code. */
    method Construct(name: string, start: Offset, size: Offset, args: Option<string>, outcome: CtrResult)
      returns (rv: int, context: Context)
      modifies this`trace
      ensures rv == 0 <==> outcome.Built?
      ensures outcome.Built? ==> context == outcome.context
      ensures trace == old(trace) + [Call.Construct(name, start, size, args)]
    {
      trace := trace + [Call.Construct(name, start, size, args)];
      match outcome {
        case Built(c) =>
          rv, context := 0, c;
        case Refused =>
          rv, context := -1, 0;
      }
    }

    /** ttype->dtr: release a context built by Construct. */
    method Destroy(name: string, context: Context)
      modifies this`trace
      ensures trace == old(trace) + [Call.Destroy(name, context)]
    {
      trace := trace + [Call.Destroy(name, context)];
    }
  }

  /** __get_free_page / free_page: `live` holds the pages handed out and not yet freed. */
  class PagePool {
    ghost var live: set<array<char>>

    /** A fresh page whose bytes are whatever `contents` says (the allocator does not clear it), or NULL. */
    method GetFreePage(ok: bool, contents: seq<char>) returns (page: array?<char>)
      requires |contents| == PAGE_SIZE
      modifies this`live
      ensures ok ==> page != null && fresh(page) && page[..] == contents && live == old(live) + {page}
      ensures !ok ==> page == null && live == old(live)
    {
      if ok {
        page := new char[PAGE_SIZE](i requires 0 <= i < PAGE_SIZE => contents[i]);
        live := live + {page};
      } else {
        page := null;
      }
    }

    method FreePage(page: array<char>)
      requires page in live
      modifies this`live
      ensures live == old(live) - {page}
    {
      live := live - {page};
    }
  }

  /** The parse-visible state of a table and the registry, as a value. */
  ghost function Snapshot(t: Table, reg: Registry): State
    reads t, reg
  {
    State(t.highs, t.targets, t.errors, reg.refs, reg.trace)
  }
}
