/**
 * The iterators that a scan of the database merges (db/db_impl.cc, NewInternalIterator): over a memtable or a table,
 * which is one sorted run, or over the files of a level, which is a two-level iterator.
 */
module InternalIterators {
  import opened InternalKeys
  import opened Lookup
  import opened Iterators
  import opened TwoLevel

  datatype Over = Run(single: RunIterator) | Level(level: TwoLevelIterator)

  class InternalIterator {
    const over: Over
    ghost const run: seq<Entry>  // the entries the iterator ranges over
    ghost var index: nat         // the position among them

    constructor OverRun(single: RunIterator)
      requires Increasing(single.run) && single.index <= |single.run|
      ensures Ok() && over == Run(single) && run == single.run
    {
      over := Run(single);
      run, index := single.run, single.index;
    }

    constructor OverLevel(level: TwoLevelIterator)
      requires level.Inv() && Increasing(level.All()) && Increasing(level.entries)
      requires Separates(level.entries, level.block)
      ensures Ok() && over == Level(level) && run == level.All()
    {
      over := Level(level);
      run, index := level.All(), level.Pos();
      new;
      level.OnEntry();
    }

    ghost function Repr(): (s: set<object>)
      ensures this in s
    {
      match over
      case Run(single) => {this, single}
      case Level(level) => {this} + level.Repr()
    }

    ghost predicate Ok()
      reads Repr()
    {
      && Increasing(run) && index <= |run|
      && match over
         case Run(single) => single.run == run && single.index == index
         case Level(level) =>
           && level.Inv() && level.All() == run && level.Pos() == index
           && Increasing(level.entries) && Separates(level.entries, level.block)
    }

    ghost predicate OnEntry()
      reads this
    {
      index < |run|
    }

    predicate Valid()
      requires Ok()
      reads Repr()
      ensures Valid() == OnEntry()
    {
      match over
      case Run(single) => single.Valid()
      case Level(level) => level.OnEntry(); level.Valid()
    }

    function Key(): (k: InternalKey)
      requires Ok() && OnEntry()
      reads Repr()
      ensures k == run[index].key
    {
      match over
      case Run(single) => single.Key()
      case Level(level) => level.OnEntry(); level.Key()
    }

    function Value(): (v: Bytes)
      requires Ok() && OnEntry()
      reads Repr()
      ensures v == run[index].value
    {
      match over
      case Run(single) => single.Value()
      case Level(level) => level.OnEntry(); level.Value()
    }

    method Seek(target: InternalKey)
      requires Ok()
      modifies Repr()
      ensures Ok() && index == SeekIndex(run, target)
    {
      hide Increasing, Separates;
      match over {
        case Run(single) => single.Seek(target);
        case Level(level) => level.Seek(target);
      }
      index := SeekIndex(run, target);
    }

    method SeekToFirst()
      requires Ok()
      modifies Repr()
      ensures Ok() && index == FirstPos(run)
    {
      hide Increasing, Separates;
      match over {
        case Run(single) => single.SeekToFirst();
        case Level(level) => level.SeekToFirst();
      }
      index := FirstPos(run);
    }

    method SeekToLast()
      requires Ok()
      modifies Repr()
      ensures Ok() && index == LastPos(run)
    {
      hide Increasing, Separates;
      match over {
        case Run(single) => single.SeekToLast();
        case Level(level) => level.SeekToLast();
      }
      index := LastPos(run);
    }

    method Next()
      requires Ok() && OnEntry()
      modifies Repr()
      ensures Ok() && index == NextPos(run, old(index))
    {
      hide Increasing, Separates;
      match over {
        case Run(single) => single.Next();
        case Level(level) => level.OnEntry(); level.Next();
      }
      index := NextPos(run, index);
    }

    method Prev()
      requires Ok() && OnEntry()
      modifies Repr()
      ensures Ok() && index == PrevPos(run, old(index))
    {
      hide Increasing, Separates;
      match over {
        case Run(single) => single.Prev();
        case Level(level) => level.OnEntry(); level.Prev();
      }
      index := PrevPos(run, index);
    }
  }
}
