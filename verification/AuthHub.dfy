/**
 * One login shared by many config roots: each spawn reconciles its root's copy
 * of an auth file with the base copy, newer wins. Copies may fail; a failed
 * copy leaves its destination as it was.
 */
module AuthHub {
  import opened Collections

  datatype File = File(content: string, mtime: int)

  /** A zero-length file counts as absent. */
  function Credential(files: map<string, File>, path: string): Option<File> {
    if path in files && files[path].content != "" then Some(files[path]) else None
  }

  /** The one that must survive: the newer, or on a tie the base's. */
  function Winner(base: Option<File>, root: Option<File>): Option<File> {
    if base.None? then root
    else if root.None? then base
    else if root.value.mtime > base.value.mtime then root else base
  }

  /** Both paths end up holding the winner; without one nothing changes. */
  function Converged(files: map<string, File>, bp: string, rp: string): map<string, File> {
    match Winner(Credential(files, bp), Credential(files, rp))
    case None => files
    case Some(file) => files[bp := file][rp := file]
  }

  class FileSystem {
    var files: map<string, File>

    constructor (initial: map<string, File>)
      ensures files == initial
    {
      files := initial;
    }

    /** Replaces dst in one step, keeping the time of src; or fails and changes nothing. */
    method CopyFile(src: string, dst: string, succeeds: bool)
      modifies this
      ensures files == if succeeds && src in old(files) then old(files)[dst := old(files)[src]] else old(files)
    {
      if succeeds && src in files {
        files := files[dst := files[src]];
      }
    }

    method SameFile(a: string, b: string, readable: bool) returns (same: bool)
      ensures same <==> readable && a in files && b in files && files[a].content == files[b].content
    {
      if !readable || a !in files || b !in files {
        return false;
      }
      return files[a].content == files[b].content;
    }

    method SyncAuthFile(bp: string, rp: string, succeeds: bool, readable: bool)
      requires bp != rp
      modifies this
      ensures files == if succeeds then Converged(old(files), bp, rp) else old(files)
    {
      var bok := bp in files && |files[bp].content| != 0;
      var rok := rp in files && |files[rp].content| != 0;
      if bok && !rok {
        CopyFile(bp, rp, succeeds);
      } else if rok && !bok {
        CopyFile(rp, bp, succeeds);
      } else if bok && rok {
        if files[bp].mtime > files[rp].mtime {
          CopyFile(bp, rp, succeeds);
        } else if files[rp].mtime > files[bp].mtime {
          CopyFile(rp, bp, succeeds);
        } else {
          var same := SameFile(bp, rp, readable);
          if !same {
            CopyFile(bp, rp, succeeds);
          }
        }
      }
    }
  }

  // ------------------------------------------------------------------- one sync

  /** There is a login to lose at the path. */
  ghost predicate Usable(files: map<string, File>, path: string) { path in files && files[path].content != "" }

  /** What a sync may do to a path: keep it, repair it, or replace it by something at least as new. */
  ghost predicate NoWorse(before: map<string, File>, after: map<string, File>, path: string) {
    Usable(before, path) ==> Usable(after, path) && before[path].mtime <= after[path].mtime
  }

  /** What one sync leaves at the two paths: the one usable file at both, of two the newer, on a tie the base's;
      and nothing moves when neither is usable, nor anywhere else. */
  lemma SyncSpelled(files: map<string, File>, bp: string, rp: string)
    requires bp != rp
    ensures var after := Converged(files, bp, rp);
      && (!Usable(files, bp) && !Usable(files, rp) ==> after == files)
      && (Usable(files, bp) && (!Usable(files, rp) || files[rp].mtime <= files[bp].mtime) ==>
           after == files[bp := files[bp]][rp := files[bp]])
      && (Usable(files, rp) && (!Usable(files, bp) || files[bp].mtime < files[rp].mtime) ==>
           after == files[bp := files[rp]][rp := files[rp]])
  {
  }

  lemma ConvergedIsNoWorse(files: map<string, File>, bp: string, rp: string, path: string)
    requires bp != rp
    ensures var after := Converged(files, bp, rp);
      && NoWorse(files, after, path)
      && (path != bp && path != rp ==> (path in files <==> path in after))
      && (path != bp && path != rp && path in files ==> after[path] == files[path])
  {
  }

  /** A newer root replaces the base, everything else is decided by the base; both sides end identical;
      a second sync finds nothing to do. */
  lemma SyncConverges(files: map<string, File>, bp: string, rp: string)
    requires bp != rp
    ensures var after := Converged(files, bp, rp); var base, root := Credential(files, bp), Credential(files, rp);
      && Credential(after, bp) == Credential(after, rp) == Winner(base, root)
      && (base.None? && root.None? <==> Winner(base, root).None?)
      && (base.Some? && root.Some? && base.value.mtime >= root.value.mtime ==> Credential(after, bp) == base)
      && Converged(after, bp, rp) == after
      && (after == files <==> base == root)
  {
    var after := Converged(files, bp, rp);
    match Winner(Credential(files, bp), Credential(files, rp)) {
      case None =>
      case Some(file) =>
        assert after[bp] == file && after[rp] == file;
        assert after[bp := file][rp := file] == after;
        if Credential(files, bp) == Credential(files, rp) {
          assert after == files;
        }
    }
  }

  // ------------------------------------------------------------- runs and passes

  /** One spawn: which root it syncs, and whether its copy succeeds. */
  datatype Spawn = Spawn(root: string, succeeds: bool)

  function Run(files: map<string, File>, bp: string, spawns: seq<Spawn>): map<string, File> {
    if spawns == [] then files
    else
      var before := Run(files, bp, spawns[..|spawns| - 1]);
      var last := spawns[|spawns| - 1];
      if last.succeeds then Converged(before, bp, last.root) else before
  }

  /** Whatever fails, no credential is ever lost to an empty or an older one. */
  lemma {:induction false} RunIsNoWorse(files: map<string, File>, bp: string, spawns: seq<Spawn>, path: string)
    requires forall spawn :: spawn in spawns ==> spawn.root != bp
    ensures NoWorse(files, Run(files, bp, spawns), path)
  {
    if spawns != [] {
      var init, last := spawns[..|spawns| - 1], spawns[|spawns| - 1];
      RunIsNoWorse(files, bp, init, path);
      ConvergedIsNoWorse(Run(files, bp, init), bp, last.root, path);
    }
  }

  /** Every root once, in some order, all copies succeeding. */
  function Pass(files: map<string, File>, bp: string, roots: seq<string>): map<string, File> {
    if roots == [] then files
    else Converged(Pass(files, bp, roots[..|roots| - 1]), bp, roots[|roots| - 1])
  }

  /** The first of the newest credentials among some paths. */
  function Newest(files: map<string, File>, paths: seq<string>): Option<File> {
    if paths == [] then None
    else Winner(Newest(files, paths[..|paths| - 1]), Credential(files, paths[|paths| - 1]))
  }

  ghost predicate FirstNewest(files: map<string, File>, paths: seq<string>, k: nat, file: File) {
    && k < |paths| && Usable(files, paths[k]) && files[paths[k]] == file
    && (forall p :: p in paths && Usable(files, p) ==> files[p].mtime <= file.mtime)
    && (forall p :: p in paths[..k] && Usable(files, p) ==> files[p].mtime < file.mtime)
  }

  lemma {:induction false} NewestIsFirst(files: map<string, File>, paths: seq<string>) returns (k: nat)
    ensures match Newest(files, paths)
      case None => forall p :: p in paths ==> !Usable(files, p)
      case Some(file) => FirstNewest(files, paths, k, file)
  {
    k := 0;
    if paths != [] {
      var init, last := paths[..|paths| - 1], paths[|paths| - 1];
      k := NewestIsFirst(files, init);
      assert forall p :: p in paths <==> p in init || p == last;
      if Newest(files, paths) == Newest(files, init) {
        assert k < |init| ==> paths[..k] == init[..k];
      } else {
        k := |init|;
      }
    }
  }

  /** The hub is at least as new as p. */
  ghost predicate Ahead(files: map<string, File>, bp: string, p: string) {
    Winner(Credential(files, bp), Credential(files, p)) == Credential(files, bp)
  }

  lemma ConvergedStep(files: map<string, File>, bp: string, rp: string, p: string)
    requires bp != rp
    ensures var after := Converged(files, bp, rp);
      && Credential(after, bp) == Winner(Credential(files, bp), Credential(files, rp))
      && Ahead(after, bp, rp)
      && (p != bp && p != rp ==> Credential(after, p) == Credential(files, p))
      && (Ahead(files, bp, p) ==> Ahead(after, bp, p))
      && (Ahead(files, bp, rp) && p != bp ==>
          && Credential(after, rp) == Credential(after, bp) == Credential(files, bp)
          && (Credential(files, p) == Credential(files, bp) ==> Credential(after, p) == Credential(files, bp)))
  {
  }

  /** One pass brings the newest credential to the hub and leaves no root newer than it. */
  lemma {:induction false} PassCollects(files: map<string, File>, bp: string, roots: seq<string>)
    requires bp !in roots && Distinct(roots)
    ensures var after := Pass(files, bp, roots);
      && Credential(after, bp) == Newest(files, [bp] + roots)
      && (forall p :: p in roots ==> Ahead(after, bp, p))
      && (forall p :: p != bp && p !in roots ==> Credential(after, p) == Credential(files, p))
  {
    hide Credential, Converged, Winner;
    if roots == [] {
      NewestOfOne(files, bp);
    } else {
      var init, last := roots[..|roots| - 1], roots[|roots| - 1];
      var before, after := Pass(files, bp, init), Pass(files, bp, roots);
      assert Elements(roots) == Elements(init) + {last};
      PassCollects(files, bp, init);
      assert ([bp] + roots)[..|roots|] == [bp] + init;
      ConvergedStep(before, bp, last, last);
      forall p | p in roots ensures Ahead(after, bp, p) {
        ConvergedStep(before, bp, last, p);
        assert p in Elements(roots);
      }
      forall p | p != bp && p !in roots ensures Credential(after, p) == Credential(files, p) {
        ConvergedStep(before, bp, last, p);
        assert p !in Elements(roots);
      }
    }
  }

  lemma NewestOfOne(files: map<string, File>, bp: string)
    ensures Newest(files, [bp]) == Credential(files, bp) && [bp] + [] == [bp]
  {
    assert [bp][..0] == [];
    assert Newest(files, [bp][..0]) == None;
  }

  /** From a hub that is ahead of every root, a pass gives each root the hub's credential. */
  lemma {:induction false} PassSpreads(files: map<string, File>, bp: string, roots: seq<string>)
    requires bp !in roots && forall p :: p in roots ==> Ahead(files, bp, p)
    ensures var after := Pass(files, bp, roots);
      && Credential(after, bp) == Credential(files, bp)
      && (forall p :: p in roots ==> Credential(after, p) == Credential(files, bp))
      && (forall p :: p != bp && Ahead(files, bp, p) ==> Ahead(after, bp, p))
  {
    hide Credential, Converged, Winner;
    if roots != [] {
      var init, last := roots[..|roots| - 1], roots[|roots| - 1];
      var before := Pass(files, bp, init);
      assert Elements(roots) == Elements(init) + {last};
      assert forall p :: p in init ==> p in roots;
      PassSpreads(files, bp, init);
      forall p | p != bp && Ahead(files, bp, p) ensures Ahead(Converged(before, bp, last), bp, p) {
        ConvergedStep(before, bp, last, p);
      }
      forall p | p in roots ensures Credential(Converged(before, bp, last), p) == Credential(files, bp) {
        ConvergedStep(before, bp, last, p);
        assert p in Elements(roots);
      }
      ConvergedStep(before, bp, last, last);
    }
  }

  /** Two passes, in whatever orders, give the hub and every root the first newest credential. */
  lemma TwoPassesConverge(files: map<string, File>, bp: string, roots: seq<string>, again: seq<string>)
    requires bp !in roots && Distinct(roots) && Elements(again) == Elements(roots)
    ensures var after := Pass(Pass(files, bp, roots), bp, again);
      forall p :: p == bp || p in roots ==> Credential(after, p) == Newest(files, [bp] + roots)
  {
    hide Credential, Converged, Winner, Pass, Newest, Ahead;
    assert forall p :: p in again <==> p in Elements(again);
    assert forall p :: p in roots <==> p in Elements(roots);
    PassCollects(files, bp, roots);
    PassSpreads(Pass(files, bp, roots), bp, again);
  }

  /** Once hub and roots agree, further passes change no file. */
  lemma {:induction false} AgreementIsStable(files: map<string, File>, bp: string, roots: seq<string>)
    requires bp !in roots && forall p :: p in roots ==> Credential(files, p) == Credential(files, bp)
    ensures Pass(files, bp, roots) == files
  {
    if roots != [] {
      var last := roots[|roots| - 1];
      AgreementIsStable(files, bp, roots[..|roots| - 1]);
      assert last in roots;
      SyncConverges(files, bp, last);
    }
  }
}
