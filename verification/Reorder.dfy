/** The profile reorder page: a tile is grabbed, rides the arrows, and is dropped or let
    go (components/cyberdeck_app/app_menu.c). The order on screen is a pending edit of
    the RAM list; only a drop saves it. */
module Reorder {
  import opened Tiles

  const MAX_STORED := 8

  datatype Profile = Profile(id: nat)

  /** A save either replaces the stored list or fails, leaving some list behind. */
  datatype SaveResult = Saved | Failed(left: seq<Profile>)

  /** What is loaded of a stored list: at most eight profiles. */
  function Loaded(flash: seq<Profile>): seq<Profile> {
    if |flash| > 8 then flash[..8] else flash
  }

  function Swapped(s: seq<Profile>, i: nat, j: nat): (t: seq<Profile>)
    requires i < |s| && j < |s|
    ensures |t| == |s|
  {
    s[i := s[j]][j := s[i]]
  }

  lemma SwapPermutes(s: seq<Profile>, i: nat, j: nat)
    requires i < |s| && j < |s|
    ensures multiset(Swapped(s, i, j)) == multiset(s)
  {
  }

  class Menu {
    const profiles: array<Profile>
    var stored: nat
    var sel: nat
    /** The grabbed tile, -1 for none. */
    var grab: int
    /** The reorder page is on screen. */
    var open: bool
    /** The list in storage. */
    var flash: seq<Profile>
    /** The profile being dragged. */
    ghost var dragged: Profile

    /** The RAM list. */
    function List(): seq<Profile>
      requires stored <= profiles.Length
      reads this, profiles
    {
      profiles[..stored]
    }

    /** The RAM list is the stored one, reordered at most while a tile is grabbed; a
        grabbed tile holds the profile it was grabbed on. */
    ghost predicate Consistent()
      reads this, profiles
    {
      && profiles.Length == MAX_STORED + 1 && stored <= MAX_STORED && -1 <= grab
      && multiset(List()) == multiset(Loaded(flash))
      && (grab == -1 ==> List() == Loaded(flash))
      && (grab >= 0 ==> open && grab < stored && profiles[grab] == dragged)
    }

    /** Between inputs, moreover, the grabbed tile is the selected one. */
    ghost predicate Valid()
      reads this, profiles
    {
      Consistent() && (grab >= 0 ==> grab == sel)
    }

    constructor (f: seq<Profile>)
      ensures Valid() && grab == -1 && flash == f && fresh(profiles)
    {
      profiles := new Profile[MAX_STORED + 1](_ => Profile(0));
      stored, sel, grab, open, flash := 0, 0, -1, false, f;
      new;
      Load();
    }

    /** load_profiles. */
    method Load()
      requires profiles.Length == MAX_STORED + 1
      modifies this`stored, profiles
      ensures stored <= MAX_STORED && List() == Loaded(flash)
    {
      stored := 0;
      while stored < |flash| && stored < MAX_STORED
        invariant stored <= |flash| && stored <= MAX_STORED
        invariant profiles[..stored] == flash[..stored]
      {
        profiles[stored] := flash[stored];
        stored := stored + 1;
      }
    }

    method SwapTiles(i: nat, j: nat)
      requires stored <= profiles.Length && i < stored && j < stored
      modifies profiles
      ensures List() == Swapped(old(List()), i, j)
    {
      profiles[i], profiles[j] := profiles[j], profiles[i];
    }

    /** Opening the page: nothing grabbed, first tile selected. */
    method Open()
      requires Valid() && !open && stored >= 2
      modifies this`open, this`sel, this`grab
      ensures Valid() && open && grab == -1 && sel == 0 && List() == old(List()) && flash == old(flash)
    {
      open, sel, grab := true, 0, -1;
    }

    /** menu_abort_reorder. */
    method Abort()
      requires Consistent()
      modifies this`grab, this`stored, profiles
      ensures Valid() && grab == -1 && List() == Loaded(flash)
    {
      if open && grab >= 0 {
        grab := -1;
        Load();
      }
    }

    /** menu_back: lets go of a grabbed tile and stays, else leaves the page. */
    method Back()
      requires Consistent() && open
      modifies this`grab, this`stored, this`open, profiles
      ensures Valid() && grab == -1 && List() == Loaded(flash) && open == (old(grab) >= 0)
    {
      if grab >= 0 {
        Abort();
      } else {
        open := false;
      }
    }

    /** A session drop takes the user out of the menu. */
    method SessionDropped()
      requires Valid()
      modifies this`grab, this`stored, this`open, profiles
      ensures Valid() && grab == -1 && List() == Loaded(flash) && !open
    {
      Abort();
      open := false;
    }

    /** The arrow keys: a grabbed tile swaps with the tile it moves onto, never with the
        trailing Back tile. */
    method Arrow(k: Arrow, ncols: nat)
      requires Valid() && open && ncols > 0
      modifies this`sel, this`grab, profiles
      ensures Valid() && (grab >= 0 <==> old(grab) >= 0) && dragged == old(dragged)
      ensures old(grab) < 0 ==> List() == old(List()) && sel == TileNav(old(sel), k, stored + 1, ncols)
      ensures var ns := TileNav(old(sel), k, stored + 1, ncols);
              old(grab) >= 0 ==>
                if ns < stored then sel == ns && List() == Swapped(old(List()), old(sel), ns)
                else sel == old(sel) && List() == old(List())
    {
      var ns := TileNav(sel, k, stored + 1, ncols);
      if grab >= 0 {
        if ns != sel && ns < stored && sel < stored {
          MoveGrabbed(ns);
        } else if ns < stored {
          assert Swapped(List(), sel, ns) == List();
        }
        return;
      }
      sel := ns;
    }

    method MoveGrabbed(ns: nat)
      requires Valid() && grab >= 0 && ns < stored
      modifies this`sel, this`grab, profiles
      ensures Valid() && grab == sel == ns && List() == Swapped(old(List()), old(sel), ns)
    {
      SwapPermutes(List(), sel, ns);
      SwapTiles(sel, ns);
      assert List()[ns] == dragged;
      grab := ns;
      sel := ns;
    }

    /** What activating tile `sel` means. */
    ghost predicate Drops()
      reads this
    {
      grab >= 0 && sel < stored
    }

    /** Enter, or a tap, on the page. The Back tile backs out; otherwise the first
        activation grabs and the second drops: the dragged profile lands on the selected
        tile and the list as shown is saved, whole or not at all as far as the RAM list
        can tell. */
    method Activate(outcome: SaveResult)
      requires Consistent() && open
      modifies this, profiles
      ensures Valid() && open == (old(sel) < old(stored) || old(grab) >= 0)
      ensures !old(Drops()) ==> flash == old(flash)
      ensures old(sel) >= old(stored) ==> grab == -1 && List() == Loaded(flash)
      ensures old(sel) < old(stored) && old(grab) < 0 ==>
                grab == sel == old(sel) && List() == old(List()) && dragged == List()[sel]
      ensures old(Drops()) ==>
                grab == -1 && List() == Loaded(flash)
                && (outcome.Saved? ==>
                      flash == Swapped(old(List()), old(sel), old(grab)) == List() && List()[old(sel)] == old(dragged))
                && (outcome.Failed? ==> flash == outcome.left)
    {
      if sel >= stored {
        Back();
        return;
      }
      if grab < 0 {
        grab := sel;
        dragged := profiles[sel];
        return;
      }
      Drop(outcome);
    }

    method Drop(outcome: SaveResult)
      requires Consistent() && grab >= 0 && sel < stored
      modifies this`grab, this`flash, this`stored, profiles
      ensures Valid() && grab == -1 && List() == Loaded(flash)
      ensures outcome.Saved? ==> flash == Swapped(old(List()), sel, old(grab)) == List() && List()[sel] == dragged
      ensures outcome.Failed? ==> flash == outcome.left
    {
      assert List()[grab] == dragged;
      if sel != grab {
        SwapTiles(sel, grab);
      } else {
        assert Swapped(List(), sel, grab) == List();
      }
      Commit(outcome);
    }

    /** commit_reorder. */
    method Commit(outcome: SaveResult)
      requires profiles.Length == MAX_STORED + 1 && stored <= MAX_STORED
      modifies this`grab, this`flash, this`stored, profiles
      ensures Valid() && grab == -1 && List() == Loaded(flash)
      ensures flash == if outcome.Saved? then old(List()) else outcome.left
    {
      grab := -1;
      match outcome {
        case Saved => flash := List();
        case Failed(left) => flash := left;
      }
      Load();
    }

    method Enter(outcome: SaveResult)
      requires Valid() && open
      modifies this, profiles
      ensures Valid() && open == (old(sel) < old(stored) || old(grab) >= 0)
      ensures !old(Drops()) ==> flash == old(flash)
      ensures old(sel) < old(stored) && old(grab) < 0 ==> grab == sel == old(sel) && List() == old(List())
      ensures old(Drops()) ==> grab == -1 && List() == Loaded(flash)
      ensures old(Drops()) ==> flash == if outcome.Saved? then old(List()) else outcome.left
    {
      if grab >= 0 {
        assert Swapped(List(), sel, grab) == List();
      }
      Activate(outcome);
    }

    /** A tap outside the tiles backs out; a tap on one selects and activates it. */
    method Tap(slot: int, outcome: SaveResult)
      requires Valid() && open && -1 <= slot <= stored
      modifies this, profiles
      ensures Valid() && open == (0 <= slot < old(stored) || old(grab) >= 0)
      ensures !(old(grab) >= 0 && 0 <= slot < old(stored)) ==> flash == old(flash)
      ensures !(0 <= slot < old(stored)) || old(grab) >= 0 ==> grab == -1 && List() == Loaded(flash)
      ensures 0 <= slot < old(stored) && old(grab) < 0 ==> grab == sel == slot && List() == old(List())
      ensures old(grab) >= 0 && 0 <= slot < old(stored) && outcome.Saved? ==>
                flash == Swapped(old(List()), slot, old(grab)) && flash[slot] == old(dragged)
      ensures old(grab) >= 0 && 0 <= slot < old(stored) && outcome.Failed? ==> flash == outcome.left
    {
      if slot < 0 {
        Back();
        return;
      }
      sel := slot;
      Activate(outcome);
    }

    /** Profiles saved or reloaded from another screen. */
    method ReloadElsewhere(saved: seq<Profile>)
      requires Valid() && !open
      modifies this`flash, this`stored, profiles
      ensures Valid() && flash == saved && List() == Loaded(flash)
    {
      flash := saved;
      Load();
    }
  }

  // --------------------------------------------------------- whole sessions

  datatype Event =
    | EvArrow(k: Arrow)
    | EvEnter(outcome: SaveResult)
    | EvTap(slot: int, outcome: SaveResult)
    | EvBack
    | EvDrop

  /** Any session on the page. However it goes, the RAM list afterwards is a reordering
      of what is stored, and what is stored is untouched unless a tile was dropped. */
  method Session(m: Menu, events: seq<Event>, ncols: nat) returns (ghost dropped: bool)
    requires m.Valid() && m.open && m.grab == -1 && ncols > 0
    modifies m, m.profiles
    ensures m.Valid()
    ensures !dropped ==> m.flash == old(m.flash)
    ensures !dropped && m.grab == -1 ==> m.List() == old(m.List())
  {
    dropped := false;
    var i := 0;
    while i < |events| && m.open
      invariant 0 <= i <= |events| && m.Valid()
      invariant !dropped ==> m.flash == old(m.flash)
    {
      match events[i] {
        case EvArrow(k) => m.Arrow(k, ncols);
        case EvEnter(outcome) =>
          dropped := dropped || m.Drops();
          m.Enter(outcome);
        case EvTap(slot, outcome) =>
          dropped := dropped || (m.grab >= 0 && 0 <= slot < m.stored);
          if -1 <= slot <= m.stored {
            m.Tap(slot, outcome);
          }
        case EvBack => m.Back();
        case EvDrop => m.SessionDropped();
      }
      i := i + 1;
    }
  }
}
