/**
 * The process-wide state of the mod menu and the operations that change it: the Initialized
 * latch and the Mods list of ModMenuPatcher, and the MenuInjectionFailed flag of the ModMenu
 * class, gathered in one object.
 */
module Patcher {
  import opened Wrappers
  import opened Registry
  import opened SpliceInjector
  import opened Discovery

  class ModMenuPatcher {
    var initialized: bool
    var mods: seq<ModEntry>
    var menuInjectionFailed: bool
    /** How many times the scan of the loaded assemblies has run. */
    ghost var scans: nat

    /** The registry is sorted by name after every operation, and the scan has run once if the
        latch is set and not at all otherwise. */
    ghost predicate Valid()
      reads this
    {
      Sorted(mods) && scans == if initialized then 1 else 0
    }

    /** Process start: no entries, the scan not yet run, no failed injection. */
    constructor ()
      ensures Valid()
      ensures !initialized && mods == [] && !menuInjectionFailed
    {
      scans := 0;
      initialized := false;
      mods := [];
      menuInjectionFailed := false;
    }

    /** Registers an entry directly: appends it and re-sorts the whole list. Empty and duplicate
        names are accepted. */
    method AddToModMenu(name: string, callback: CallbackId)
      requires Valid()
      modifies this`mods
      ensures Valid()
      ensures |mods| == |old(mods)| + 1
      ensures multiset(mods) == multiset(old(mods)) + multiset{ModEntry(name, callback)}
    {
      var mod := ModEntry(name, callback);
      mods := mods + [mod];
      mods := SortByName(mods);
    }

    /** Runs the discovery pass once: a second call changes nothing. The first appends every
        discovered entry and then sorts the whole list. */
    method Initialize(assemblies: seq<AssemblyInfo>)
      requires Valid()
      modifies this`initialized, this`mods, this`scans
      ensures Valid() && initialized && scans == 1
      ensures old(initialized) ==> mods == old(mods) && scans == old(scans)
      ensures !old(initialized) ==> multiset(mods) == multiset(old(mods) + Discover(assemblies))
    {
      if initialized {
        return;
      }
      initialized := true;
      scans := scans + 1;
      var found := DiscoverEntries(assemblies);
      mods := mods + found;
      mods := SortByName(mods);
    }

    /** The transpiler on Program.DrawMenuBar. With an anchor it returns the spliced IL and
        leaves the flag alone; without one it returns the IL unchanged and sets
        MenuInjectionFailed; when List.Insert throws, the exception escapes and nothing is set. */
    method Transpiler(instructions: seq<Instruction>) returns (result: Result<seq<Instruction>, nat>)
      modifies this`menuInjectionFailed
      ensures Splice(instructions).Injected? ==>
        result == Ok(Splice(instructions).codes) && menuInjectionFailed == old(menuInjectionFailed)
      ensures Splice(instructions).AnchorNotFound? ==> result == Ok(instructions) && menuInjectionFailed
      ensures Splice(instructions).InsertOutOfRange? ==>
        result == Err(Splice(instructions).index) && menuInjectionFailed == old(menuInjectionFailed)
    {
      var outcome := SpliceInstructions(instructions);
      match outcome {
        case Injected(codes, _) =>
          result := Ok(codes);
        case AnchorNotFound =>
          menuInjectionFailed := true;
          result := Ok(instructions);
        case InsertOutOfRange(index) =>
          result := Err(index);
      }
    }
  }
}
