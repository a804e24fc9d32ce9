/** The provider's cache of event sets and its retrying `Close`. */
module Providers {
  import opened Wire
  import opened Names

  datatype Key = Key(level: byte, keyword: u64, group: Bytes)

  datatype ProviderState = ProviderZero | ProviderOpen | ProviderClosing | ProviderClosed

  datatype ProviderError = ErrClosed | BadLevel | BadName | ErrState | ErrCreate | ErrSetClose | ErrFileClose

  /** How a registration's `Close` can end. */
  datatype Ending = Released | UnregisterFails | UnmapFails

  /** What the event-set creator gives back. */
  datatype Creation = Created | CreatedUnusable | CreatedNothing | CreateFails

  class EventSet {
    /** Accepting writes; what `closed` negates. */
    var open: bool
    /** Unregistered and unmapped. */
    var released: bool

    ghost predicate Valid()
      reads this
    {
      released ==> !open
    }

    constructor ()
      ensures Valid() && open && !released
    {
      open, released := true, false;
    }

    method Close(ending: Ending) returns (ok: bool)
      requires Valid()
      modifies this
      ensures Valid()
      ensures ok == (old(released) || ending.Released?)
      ensures released == ok
      ensures open ==> old(open)
    {
      if released {
        return true;
      }
      match ending {
        case Released =>
          open, released := false, true;
          return true;
        case UnregisterFails =>
          return false;
        case UnmapFails =>
          open := false;
          return false;
      }
    }
  }

  class Provider {
    const name: Bytes
    const ownFile: bool
    var state: ProviderState
    var sets: map<Key, EventSet>
    /** Every set handed out so far, and how often the file was closed. */
    ghost var made: set<EventSet>
    ghost var fileCloses: nat

    ghost predicate Valid()
      reads this, made
    {
      && Identifier(name) && |name| <= MAX_PROVIDER_GROUP_LENGTH
      && (forall key :: key in sets ==> sets[key] in made && GoodKey(name, key))
      && (forall key, other :: key in sets && other in sets && sets[key] == sets[other] ==> key == other)
      && (forall s :: s in made ==> s.Valid())
      // whatever still holds kernel state is in the cache
      && (forall s :: s in made && !s.released ==> exists key :: key in sets && sets[key] == s)
      && (state.ProviderOpen? ==> fileCloses == 0)
      && (state.ProviderClosed? ==> sets == map[])
      && (fileCloses > 0 ==> ownFile && sets == map[])
    }

    /** `newProvider` with a valid name. */
    constructor (name: Bytes, ownFile: bool)
      requires Identifier(name) && |name| <= MAX_PROVIDER_GROUP_LENGTH
      ensures Valid() && state == ProviderOpen && sets == map[] && made == {} && fileCloses == 0
      ensures this.name == name && this.ownFile == ownFile
    {
      this.name, this.ownFile := name, ownFile;
      state, sets, made, fileCloses := ProviderOpen, map[], {}, 0;
    }

    /** `EventSet`: the cached set, or a new one in place of a closed one. */
    method Get(key: Key, ending: Ending, creation: Creation) returns (r: Result<EventSet, ProviderError>)
      requires Valid()
      modifies this`sets, this`made, made
      ensures Valid() && old(made) <= made && fresh(made - old(made))
      ensures !state.ProviderOpen? ==> r == Err(ErrClosed) && sets == old(sets)
      ensures state.ProviderOpen? ==> (GoodKey(name, key) <==> r != Err(BadLevel) && r != Err(BadName))
      // the other keys keep their sets, whatever happens
      ensures forall other :: other != key ==> (other in sets <==> other in old(sets)) && (other in sets ==> sets[other] == old(sets)[other])
      // an open set is shared; a closed one is replaced only once it is released
      ensures state.ProviderOpen? && GoodKey(name, key) && key in old(sets) && old(sets[key].open) ==>
                r == Ok(old(sets)[key]) && sets == old(sets)
      ensures r.Ok? ==> key in sets && sets[key] == r.value && r.value.open
      ensures r.Err? && key in old(sets) ==> (key in sets && sets[key] == old(sets)[key]) || (key !in sets && old(sets)[key].released)
      ensures r.Ok? && key in old(sets) && r.value != old(sets)[key] ==> old(sets)[key].released
    {
      if state != ProviderOpen {
        return Err(ErrClosed);
      }
      if key.level < 1 || key.level > 5 {
        return Err(BadLevel);
      }
      if !ValidGroup(key.group) {
        return Err(BadName);
      }
      if |name| + |key.group| > MAX_PROVIDER_GROUP_LENGTH {
        return Err(BadName);
      }
      if key in sets {
        var set_ := sets[key];
        if set_.open {
          return Ok(set_);
        }
        var ok := CloseOne(key, ending);
        if !ok {
          return Err(ErrSetClose);
        }
      }
      match creation {
        case CreateFails =>
          return Err(ErrCreate);
        case CreatedNothing =>
          return Err(ErrState);
        case CreatedUnusable =>
          return Err(ErrState);
        case Created =>
          var created := new EventSet();
          Insert(key, created);
          return Ok(created);
      }
    }

    /** `delete(p.sets, key)` for a released set. */
    method Drop(key: Key)
      requires Valid() && key in sets && sets[key].released
      modifies this`sets
      ensures Valid() && sets == old(sets) - {key}
    {
      ghost var before := sets;
      sets := map other | other in sets && other != key :: sets[other];
      forall s | s in made && !s.released ensures exists other :: other in sets && sets[other] == s {
        var other :| other in before && before[other] == s;
        assert other in sets && sets[other] == s;
      }
    }

    method Insert(key: Key, created: EventSet)
      requires Valid() && state.ProviderOpen? && key !in sets && GoodKey(name, key)
      requires created !in made && created.Valid()
      modifies this`sets, this`made
      ensures Valid() && made == old(made) + {created} && sets == old(sets)[key := created]
    {
      ghost var before := sets;
      made := made + {created};
      sets := sets[key := created];
      assert sets[key] == created;
      forall s | s in made && !s.released ensures exists other :: other in sets && sets[other] == s {
        if s != created {
          var other :| other in before && before[other] == s;
          assert other in sets && sets[other] == s;
        }
      }
    }

    /** One attempt on one cached set; a released set leaves the cache. */
    method CloseOne(key: Key, ending: Ending) returns (ok: bool)
      requires Valid() && key in sets
      modifies this`sets, sets[key]
      ensures Valid()
      ensures ok == old(sets[key].released || ending.Released?) && old(sets)[key].released == ok
      ensures sets == if ok then old(sets) - {key} else old(sets)
    {
      ok := sets[key].Close(ending);
      if ok {
        Drop(key);
      }
    }

    /** `Close`: every cached set is closed, and the file only after all of them. */
    method Close(endings: Key -> Ending, fileOk: bool) returns (err: Option<ProviderError>)
      requires Valid()
      modifies this`state, this`sets, this`fileCloses, made
      ensures Valid() && made == old(made)
      ensures old(state).ProviderZero? ==> err == Some(ErrClosed) && state == old(state) && sets == old(sets)
      ensures old(state).ProviderClosed? ==> err == None && state == old(state) && fileCloses == old(fileCloses)
      ensures old(state) in {ProviderOpen, ProviderClosing} ==>
        // exactly the sets that could not be released stay, for the next attempt
        && (forall key :: key in sets <==> key in old(sets) && !old(sets)[key].released)
        && (forall key :: key in sets ==> sets[key] == old(sets)[key] && !endings(key).Released?)
        && (sets != map[] ==> err == Some(ErrSetClose) && state == ProviderClosing && fileCloses == old(fileCloses))
        && (sets == map[] ==>
             && fileCloses == old(fileCloses) + (if ownFile then 1 else 0)
             && err == (if ownFile && !fileOk then Some(ErrFileClose) else None)
             && state == (if err.None? then ProviderClosed else ProviderClosing))
      // the file is closed only when nothing ever handed out is left
      ensures fileCloses > old(fileCloses) ==> sets == map[] && forall s :: s in made ==> s.released
    {
      if state == ProviderZero {
        return Some(ErrClosed);
      }
      if state == ProviderClosed {
        return None;
      }
      state := ProviderClosing;
      var failed := CloseSets(endings);
      if failed {
        return Some(ErrSetClose);
      }
      if ownFile {
        fileCloses := fileCloses + 1;
        if !fileOk {
          return Some(ErrFileClose);
        }
      }
      state := ProviderClosed;
      return None;
    }

    lemma Cached()
      requires Valid()
      ensures forall key :: key in sets ==> sets[key] in made
      ensures forall key, other :: key in sets && other in sets && sets[key] == sets[other] ==> key == other
    {
    }

    method CloseSets(endings: Key -> Ending) returns (failed: bool)
      requires Valid() && state.ProviderClosing?
      modifies this`sets, made
      ensures Valid()
      ensures forall key :: key in sets <==> key in old(sets) && !old(sets)[key].released
      ensures forall key :: key in sets ==> sets[key] == old(sets)[key] && !endings(key).Released?
      ensures failed <==> sets != map[]
    {
      hide Valid, GoodKey;
      Cached();
      var keys := sets.Keys;
      failed := false;
      while keys != {}
        invariant Valid()
        invariant keys <= sets.Keys <= old(sets).Keys
        invariant forall key :: key in sets ==> sets[key] == old(sets)[key]
        invariant forall key :: key in old(sets) && key !in keys ==>
          (key in sets <==> !old(sets)[key].released) && (key in sets ==> !endings(key).Released?)
        invariant forall key :: key in keys ==> key in sets && unchanged(sets[key])
        invariant failed <==> exists key :: key in sets && key !in keys
        decreases |keys|
      {
        var key :| key in keys;
        keys := keys - {key};
        Cached();
        var ok := CloseOne(key, endings(key));
        if !ok {
          failed := true;
        }
      }
    }
  }

  predicate GoodKey(name: Bytes, key: Key) {
    1 <= key.level <= 5 && ValidGroup(key.group) && |name| + |key.group| <= MAX_PROVIDER_GROUP_LENGTH
  }

  /** Two sets of the cache never share a tracepoint. */
  lemma CachedNamesDiffer(p: Provider, key: Key, other: Key)
    requires p.Valid() && key in p.sets && other in p.sets && key != other
    ensures TracepointName(p.name, key.level, key.keyword, key.group).Ok?
    ensures TracepointName(p.name, key.level, key.keyword, key.group)
         != TracepointName(p.name, other.level, other.keyword, other.group)
  {
    GroupLimitSuffices(p.name, key.level, key.keyword, key.group);
    if TracepointName(p.name, key.level, key.keyword, key.group)
       == TracepointName(p.name, other.level, other.keyword, other.group) {
      NamesInjective(p.name, key.level, key.keyword, key.group, other.level, other.keyword, other.group);
    }
  }
}
