/** When mapping a page keeps the ownership of frames: exactly under its guards. */
module PageGuards {
  import opened Options
  import opened AddressSpaces
  import opened ProcessLives

  /** Some assignment of owners fits the page tables and the frames in use. */
  ghost predicate Accounted(k: Kernel, sys: set<nat>) {
    exists own :: Owned(k, own, sys)
  }

  /** Mapping over a mapped page loses the frame that was there: it stays in use
      and nothing names it. */
  lemma RemapLoses(k: Kernel, own: Owners, sys: set<nat>, p: nat, i: nat, j: nat, own': Owners)
    requires Owned(k, own, sys) && p in k.procs && i < USER_ENTRIES && j < ENTRIES
    requires MapFresh(k, p, i, j).Some? && Translate(k.mem, k.procs[p].pd, i, j).Some?
    ensures !Owned(MapFresh(k, p, i, j).value, own', sys)
  {
    hide MapFresh, OwnersAfterMap;
    var f := FrameOf(Translate(k.mem, k.procs[p].pd, i, j).value);
    UnmapOwned(k, own, sys, p, i, j);
    MapOverOwned(k, own, sys, p, i, j, f);
    hide Owned;
    SystemIs(k, own, sys, f);
    if Owned(MapFresh(k, p, i, j).value, own', sys) {
      assert f in sys + {f};
      AccountsAgree(MapFresh(k, p, i, j).value, own', sys, OwnersAfterMap(k, own, p, i, j), sys + {f});
      assert false;
    }
  }

  // ----- a stale table

  /** A missing table that is given a frame with a stale present entry: the entry
      names a frame that is not this page's. */
  lemma StaleTableBreaks(k: Kernel, own: Owners, sys: set<nat>, p: nat, i: nat, j: nat, own': Owners)
    requires Owned(k, own, sys) && p in k.procs && i < USER_ENTRIES && j < ENTRIES
    requires MapFresh(k, p, i, j).Some? && !TableReady(k, p, i, j)
    ensures !Owned(MapFresh(k, p, i, j).value, own', sys)
  {
    hide Owned, MapFresh, TableReady, Present, FrameOf;
    ShapedKnown(k, own, sys);
    var t, g, x := StaleEntry(k, own, sys, p, i, j);
    var k' := MapFresh(k, p, i, j).value;
    StaleNames(k, k', own', sys, p, i, j, t, g, x);
    var f := FrameOf(k'.mem[t][x]);
    if f in own {
      ForcedRole(k, own, sys, p, i, k', own', t, f);
    }
  }

  /** The added table, the page's frame, and where a present entry was left. */
  lemma StaleEntry(k: Kernel, own: Owners, sys: set<nat>, p: nat, i: nat, j: nat) returns (t: nat, g: nat, x: nat)
    requires Owned(k, own, sys) && p in k.procs && i < USER_ENTRIES && j < ENTRIES
    requires MapFresh(k, p, i, j).Some? && !TableReady(k, p, i, j)
    ensures var d, k' := k.procs[p].pd, MapFresh(k, p, i, j).value;
      && Shaped(k') && k'.procs == k.procs && t < |k.mem| == |k'.mem| && t !in own && x < ENTRIES && x != j
      && k.mem[d][i] == 0 && k'.mem[d] == k.mem[d][i := EntryFor(t, USER_FLAGS)]
      && (forall a :: 0 <= a < |k.mem| && a != t && a != d ==> k'.mem[a] == k.mem[a])
      && k'.mem[t][j] == EntryFor(g, USER_FLAGS) && Present(k'.mem[t][x])
      && k'.used == own.Keys + {t, g}
  {
    hide TablesDown, TablesUp, PagesDown, PagesUp;
    g, t := TakeFrame(k).value.1, TableFrame(k).value;
    TwoPokes(k, own, sys, p, i, j, g, t);
    x :| 0 <= x < ENTRIES && x != j && Present(k.mem[t][x]);
    TableFrames(k, own, sys, p, i, t, k.mem[t][j := 0]);
  }

  lemma StaleNames(k: Kernel, k': Kernel, own': Owners, sys: set<nat>, p: nat, i: nat, j: nat, t: nat, g: nat, x: nat)
    requires Shaped(k') && p in k'.procs && i < USER_ENTRIES && j < ENTRIES && x < ENTRIES && x != j
    requires t < |k'.mem| && k'.mem[k'.procs[p].pd][i] == EntryFor(t, USER_FLAGS)
    requires k'.mem[t][j] == EntryFor(g, USER_FLAGS) && Present(k'.mem[t][x])
    ensures Owned(k', own', sys) ==> var f := FrameOf(k'.mem[t][x]);
              f in own' && own'[f] == Page(p, i, x) && f != g && f != t && f in k'.used
  {
    if Owned(k', own', sys) {
      assert Names(own', k'.mem[k'.procs[p].pd][i], Table(p, i));
      assert Names(own', k'.mem[t][x], Page(p, i, x));
      assert Names(own', k'.mem[t][j], Page(p, i, j));
    }
  }

  /** Every frame used before keeps the role the page tables give it. */
  lemma ForcedRole(k: Kernel, own: Owners, sys: set<nat>, p: nat, i: nat, k': Kernel, own': Owners, t: nat, f: nat)
    requires Owned(k, own, sys) && p in k.procs && i < USER_ENTRIES && Shaped(k') && k'.procs == k.procs
    requires k.mem[k.procs[p].pd][i] == 0 && t < |k.mem| == |k'.mem| && t !in own && f in own
    requires k'.mem[k.procs[p].pd] == k.mem[k.procs[p].pd][i := EntryFor(t, USER_FLAGS)]
    requires forall a :: 0 <= a < |k.mem| && a != t && a != k.procs[p].pd ==> k'.mem[a] == k.mem[a]
    ensures Owned(k', own', sys) ==> f in own' && own'[f] == own[f]
    ensures own[f].Page? ==> own[f].p != p || own[f].i != i
  {
    if own[f].Page? {
      var r := own[f];
      assert Translate(k.mem, k.procs[r.p].pd, r.i, r.j) == Some(EntryFor(f, USER_FLAGS));
      var e := k.mem[k.procs[r.p].pd][r.i];
      assert Names(own, e, Table(r.p, r.i));
      assert own[k.procs[r.p].pd] == Dir(r.p) && own[k.procs[p].pd] == Dir(p);
    }
    if Owned(k', own', sys) {
      match own[f]
      case Page(q, x, y) =>
        var e := k.mem[k.procs[q].pd][x];
        assert Names(own', k'.mem[k.procs[q].pd][x], Table(q, x));
        assert Names(own', k'.mem[FrameOf(e)][y], Page(q, x, y));
      case Table(q, x) =>
        assert own[k.procs[q].pd] == Dir(q) && own[k.procs[p].pd] == Dir(p);
        assert Names(own', k'.mem[k.procs[q].pd][x], Table(q, x));
      case _ =>
    }
  }

  /** Mapping a page keeps "every used frame has one owner and the page tables say
      so" exactly when the page was not mapped and a table it has to add gets a
      frame without stale present entries. */
  lemma MapKeepsOwnershipExactly(k: Kernel, own: Owners, sys: set<nat>, p: nat, i: nat, j: nat)
    requires Owned(k, own, sys) && p in k.procs && i < USER_ENTRIES && j < ENTRIES
    requires MapFresh(k, p, i, j).Some?
    ensures Accounted(MapFresh(k, p, i, j).value, sys)
            <==> Translate(k.mem, k.procs[p].pd, i, j).None? && TableReady(k, p, i, j)
  {
    var k' := MapFresh(k, p, i, j).value;
    if Translate(k.mem, k.procs[p].pd, i, j).Some? {
      forall own' ensures !Owned(k', own', sys) {
        RemapLoses(k, own, sys, p, i, j, own');
      }
    } else if !TableReady(k, p, i, j) {
      forall own' ensures !Owned(k', own', sys) {
        StaleTableBreaks(k, own, sys, p, i, j, own');
      }
    } else {
      MapNewOwned(k, own, sys, p, i, j);
    }
  }
}
