/**
 * The module-level `autoUpdateWatcher` handle and the three places that
 * switch it: `activate`, the configuration-change handler and `deactivate`.
 * Creating a chokidar watcher and closing one are abstract: a watcher is
 * identified by the order in which it was created, and closing one records
 * it as closed.
 */
module AutoUpdate {
  import opened Wrappers

  /** A chokidar watcher, numbered in order of creation. */
  type Handle = nat

  class WatcherState {
    /** `autoUpdateWatcher`: `None` is `null`. */
    var watcher: Option<Handle>
    /** How many watchers were created; they are the handles below this. */
    var created: nat
    /** The watchers that were closed. */
    var closed: set<Handle>

    /** Watchers created and not yet closed. */
    ghost function Live(): set<Handle>
      reads this
    {
      set h | 0 <= h < created && h !in closed
    }

    /** Every live watcher is the one the handle points to. */
    ghost predicate Valid()
      reads this
    {
      && (watcher.Some? ==> watcher.value < created)
      && (forall h :: h in closed ==> h < created)
      && forall h :: 0 <= h < created && h !in closed ==> watcher == Some(h)
    }

    /** Module load: `let autoUpdateWatcher = null`. */
    constructor ()
      ensures Valid()
      ensures watcher == None && created == 0 && closed == {}
    {
      watcher := None;
      created := 0;
      closed := {};
    }

    /** `autoUpdate()`: a new watcher on the cache directory. */
    method CreateWatcher() returns (h: Handle)
      modifies this
      ensures h == old(created) && created == old(created) + 1
      ensures watcher == old(watcher) && closed == old(closed)
    {
      h := created;
      created := created + 1;
    }

    /** `watcher.close()`. */
    method CloseWatcher(h: Handle)
      requires h < created
      modifies this
      ensures closed == old(closed) + {h}
      ensures watcher == old(watcher) && created == old(created)
    {
      closed := closed + {h};
    }

    /** `activate`: with `autoUpdate` on, a watcher is created and stored. */
    method Activate(autoUpdate: bool)
      requires Valid() && watcher.None?
      modifies this
      ensures Valid() && closed == old(closed)
      ensures autoUpdate ==> watcher == Some(old(created)) && created == old(created) + 1
      ensures autoUpdate ==> Live() == {watcher.value}
      ensures !autoUpdate ==> watcher == None && created == old(created)
    {
      if autoUpdate {
        var h := CreateWatcher();
        watcher := Some(h);
      }
    }

    /** The configuration-change handler: when `autoUpdate` changed to on, a
        watcher is created only if none is stored; when it changed to off, a
        stored watcher is closed and the handle cleared. */
    method OnConfigurationChanged(affectsAutoUpdate: bool, autoUpdate: bool)
      requires Valid()
      modifies this
      ensures Valid()
      ensures !affectsAutoUpdate ==> watcher == old(watcher) && created == old(created) && closed == old(closed)
      ensures affectsAutoUpdate && autoUpdate && old(watcher).Some? ==>
        watcher == old(watcher) && created == old(created) && closed == old(closed)
      ensures affectsAutoUpdate && autoUpdate && old(watcher).None? ==>
        watcher == Some(old(created)) && created == old(created) + 1 && closed == old(closed)
      ensures affectsAutoUpdate && autoUpdate && old(watcher).None? ==> Live() == {watcher.value}
      ensures affectsAutoUpdate && !autoUpdate ==>
        watcher == None && created == old(created)
        && closed == (if old(watcher).Some? then old(closed) + {old(watcher).value} else old(closed))
    {
      if affectsAutoUpdate {
        if autoUpdate {
          if watcher.None? {
            var h := CreateWatcher();
            watcher := Some(h);
          }
        } else if watcher.Some? {
          CloseWatcher(watcher.value);
          watcher := None;
        }
      }
    }

    /** `deactivate`: a stored watcher is closed but the handle is not
        cleared; afterwards no watcher is live. */
    method Deactivate()
      requires Valid()
      modifies this
      ensures Valid() && Live() == {}
      ensures watcher == old(watcher) && created == old(created)
      ensures closed == if old(watcher).Some? then old(closed) + {old(watcher).value} else old(closed)
    {
      if watcher.Some? {
        CloseWatcher(watcher.value);
      }
      assert forall h :: h in Live() ==> false;
    }
  }

  /** At most one watcher is live at any time. */
  lemma {:induction false} AtMostOneLive(s: WatcherState)
    requires s.Valid()
    ensures |s.Live()| <= 1
    ensures s.Live() <= (if s.watcher.Some? then {s.watcher.value} else {})
  {
    var bound: set<Handle> := if s.watcher.Some? then {s.watcher.value} else {};
    assert s.Live() <= bound;
    SubsetCardinality(s.Live(), bound);
  }

  lemma {:induction false} SubsetCardinality(a: set<Handle>, b: set<Handle>)
    requires a <= b
    ensures |a| <= |b|
  {
    if a != {} {
      var x :| x in a;
      SubsetCardinality(a - {x}, b - {x});
    }
  }
}
