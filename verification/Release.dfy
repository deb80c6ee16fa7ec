/** The folder shuffling of release/release.py: every platform's archive is packed from a tree that holds only its own
    libraries, and the tree is put back in the end. */
module Release {
  import opened Basics

  /** A folder's files, and the folder of the same name that `shutil.move` has put inside it, if any. */
  datatype Folder = Folder(files: int, inside: Option<Folder>)

  type Dir = map<string, Folder>

  /** The four directories the script moves folders between, and whether it has died of an exception. */
  datatype Tree = Tree(libs: Dir, shared: Dir, tmpLibs: Dir, tmpShared: Dir, failed: bool)

  /** move_folder: nothing if there is no such folder. If the destination exists, `shutil.move` moves into it, and
      raises an exception if it finds the name taken there too. */
  function MoveFolder(src: Dir, dest: Dir, p: string): (Dir, Dir, bool) {
    if p !in src then (src, dest, true)
    else if p !in dest then (src - {p}, dest[p := src[p]], true)
    else if dest[p].inside.None? then (src - {p}, dest[p := dest[p].(inside := Some(src[p]))], true)
    else (src, dest, false)
  }

  function ToTemp(t: Tree, p: string): Tree {
    if t.failed then t
    else
      var (libs, tmpLibs, ok) := MoveFolder(t.libs, t.tmpLibs, p);
      if !ok then t.(failed := true)
      else
        var (shared, tmpShared, ok2) := MoveFolder(t.shared, t.tmpShared, p);
        Tree(libs, shared, tmpLibs, tmpShared, !ok2)
  }

  function ToSdk(t: Tree, p: string): Tree {
    if t.failed then t
    else
      var (tmpLibs, libs, ok) := MoveFolder(t.tmpLibs, t.libs, p);
      if !ok then t.(failed := true)
      else
        var (tmpShared, shared, ok2) := MoveFolder(t.tmpShared, t.shared, p);
        Tree(libs, shared, tmpLibs, tmpShared, !ok2)
  }

  function AllToTemp(t: Tree, ps: seq<string>): Tree {
    if ps == [] then t else ToTemp(AllToTemp(t, ButLast(ps)), Last(ps))
  }

  function AllToSdk(t: Tree, ps: seq<string>): Tree {
    if ps == [] then t else ToSdk(AllToSdk(t, ButLast(ps)), Last(ps))
  }

  /** What the archiver sees of the sdk when it packs one platform. */
  datatype Archive = Archive(platform: string, libs: Dir, shared: Dir)

  /** The first loop of the script: the tree after it and the archives it packed. */
  function Pack(t: Tree, all: seq<string>, todo: seq<string>): (Tree, seq<Archive>) {
    if todo == [] then (t, [])
    else
      var (u, archives) := Pack(t, all, ButLast(todo));
      var p := Last(todo);
      var v := ToSdk(AllToTemp(u, all), p);
      (v, if v.failed then archives else archives + [Archive(p, v.libs, v.shared)])
  }

  /** The whole script on a list of platforms. */
  function Run(t: Tree, ps: seq<string>): Tree {
    AllToSdk(Pack(t, ps, ps).0, ps)
  }

  // ---- one move -----------------------------------------------------------------------------------------------

  /** The files under a name, from the outer folder inwards; none if there is no such folder. */
  function FilesOf(f: Folder): seq<int> {
    [f.files] + if f.inside.Some? then FilesOf(f.inside.value) else []
  }

  function FilesUnder(d: Dir, name: string): seq<int> {
    if name in d then FilesOf(d[name]) else []
  }

  /** A move loses no file: a folder that is moved takes its files along, behind those of a folder of its name that is
      there already, and no other folder notices. It fails, changing nothing, if and only if the folder there has one of
      its name inside already. */
  lemma MoveFolderKeepsEveryFile(src: Dir, dest: Dir, p: string, name: string)
    ensures var (src', dest', ok) := MoveFolder(src, dest, p);
            && (ok <==> !(p in src && p in dest && dest[p].inside.Some?))
            && (!ok ==> src' == src && dest' == dest)
            && (ok ==> p !in src' && FilesUnder(dest', p) == FilesUnder(dest, p) + FilesUnder(src, p))
            && (name != p ==> FilesUnder(src', name) == FilesUnder(src, name)
                              && FilesUnder(dest', name) == FilesUnder(dest, name))
            && src'.Keys <= src.Keys && dest.Keys <= dest'.Keys <= dest.Keys + {p}
  {
  }

  // ---- the script ---------------------------------------------------------------------------------------------

  class Script {
    var libs: Dir
    var shared: Dir
    var tmpLibs: Dir
    var tmpShared: Dir
    var failed: bool
    var archives: seq<Archive>

    ghost function Now(): Tree
      reads this
    {
      Tree(libs, shared, tmpLibs, tmpShared, failed)
    }

    constructor (t: Tree)
      ensures Now() == t && archives == []
    {
      libs, shared, tmpLibs, tmpShared, failed := t.libs, t.shared, t.tmpLibs, t.tmpShared, t.failed;
      archives := [];
    }

    method MovePlatformToTemp(p: string)
      modifies this
      ensures Now() == ToTemp(old(Now()), p) && archives == old(archives)
    {
      if failed {
        return;
      }
      var (src, dest, ok) := MoveFolder(libs, tmpLibs, p);
      if !ok {
        failed := true;
        return;
      }
      libs, tmpLibs := src, dest;
      var (src2, dest2, ok2) := MoveFolder(shared, tmpShared, p);
      shared, tmpShared, failed := src2, dest2, !ok2;
    }

    method MovePlatformToSdk(p: string)
      modifies this
      ensures Now() == ToSdk(old(Now()), p) && archives == old(archives)
    {
      if failed {
        return;
      }
      var (src, dest, ok) := MoveFolder(tmpLibs, libs, p);
      if !ok {
        failed := true;
        return;
      }
      tmpLibs, libs := src, dest;
      var (src2, dest2, ok2) := MoveFolder(tmpShared, shared, p);
      tmpShared, shared, failed := src2, dest2, !ok2;
    }

    method MoveAllToTemp(platforms: seq<string>)
      modifies this
      ensures Now() == AllToTemp(old(Now()), platforms) && archives == old(archives)
    {
      var i := 0;
      while i < |platforms|
        invariant 0 <= i <= |platforms|
        invariant Now() == AllToTemp(old(Now()), platforms[..i]) && archives == old(archives)
      {
        MovePlatformToTemp(platforms[i]);
        assert ButLast(platforms[..i + 1]) == platforms[..i];
        i := i + 1;
      }
      assert platforms[..|platforms|] == platforms;
    }

    method ReleasePlatform(p: string)
      modifies this
      ensures Now() == ToSdk(old(Now()), p)
      ensures archives == if failed then old(archives) else old(archives) + [Archive(p, libs, shared)]
    {
      MovePlatformToSdk(p);
      if !failed {
        archives := archives + [Archive(p, libs, shared)];
      }
    }

    /** The two loops at the end of the script. */
    method Execute(platforms: seq<string>)
      requires archives == []
      modifies this
      ensures Now() == Run(old(Now()), platforms)
      ensures archives == Pack(old(Now()), platforms, platforms).1
    {
      hide AllToTemp, ToSdk, MoveFolder;
      ghost var t := Now();
      var i := 0;
      while i < |platforms|
        invariant 0 <= i <= |platforms|
        invariant (Now(), archives) == Pack(t, platforms, platforms[..i])
      {
        MoveAllToTemp(platforms);
        ReleasePlatform(platforms[i]);
        assert ButLast(platforms[..i + 1]) == platforms[..i] && Last(platforms[..i + 1]) == platforms[i];
        i := i + 1;
      }
      assert platforms[..|platforms|] == platforms;
      ghost var packed := Now();
      PutBack(platforms);
      assert Run(t, platforms) == AllToSdk(packed, platforms);
    }

    /** The last loop of the script. */
    method PutBack(platforms: seq<string>)
      modifies this
      ensures Now() == AllToSdk(old(Now()), platforms) && archives == old(archives)
    {
      hide ToSdk;
      var i := 0;
      while i < |platforms|
        invariant 0 <= i <= |platforms|
        invariant Now() == AllToSdk(old(Now()), platforms[..i]) && archives == old(archives)
      {
        MovePlatformToSdk(platforms[i]);
        assert ButLast(platforms[..i + 1]) == platforms[..i];
        i := i + 1;
      }
      assert platforms[..|platforms|] == platforms;
    }
  }

  // ---- where every folder is ----------------------------------------------------------------------------------

  function Only(d: Dir, ps: set<string>): Dir {
    map p | p in d && p in ps :: d[p]
  }

  /** The tree t with the platforms `away` moved out: each of their folders is in temp, every other in the sdk. */
  ghost function Moved(t: Tree, away: set<string>): Tree {
    Tree(t.libs - away, t.shared - away, t.tmpLibs + Only(t.libs, away), t.tmpShared + Only(t.shared, away), false)
  }

  function Set(ps: seq<string>): set<string> {
    set p | p in ps
  }

  /** The temp area holds no folder of a listed platform. */
  ghost predicate Clean(t: Tree, ps: set<string>) {
    !t.failed && t.tmpLibs.Keys !! ps && t.tmpShared.Keys !! ps
  }

  lemma MoveOut(d: Dir, tmp: Dir, away: set<string>, ps: set<string>, p: string)
    requires tmp.Keys !! ps && away <= ps && p in ps
    ensures MoveFolder(d - away, tmp + Only(d, away), p) == (d - (away + {p}), tmp + Only(d, away + {p}), true)
  {
    if p in d && p !in away {
      assert (tmp + Only(d, away))[p := d[p]] == tmp + Only(d, away + {p});
      assert (d - away) - {p} == d - (away + {p});
    } else {
      assert Only(d, away + {p}) == Only(d, away);
      assert d - (away + {p}) == d - away;
    }
  }

  lemma MoveIn(d: Dir, tmp: Dir, away: set<string>, ps: set<string>, p: string)
    requires tmp.Keys !! ps && away <= ps && p in ps
    ensures MoveFolder(tmp + Only(d, away), d - away, p) == (tmp + Only(d, away - {p}), d - (away - {p}), true)
  {
    if p in d && p in away {
      assert (tmp + Only(d, away)) - {p} == tmp + Only(d, away - {p});
      assert (d - away)[p := d[p]] == d - (away - {p});
    } else {
      assert Only(d, away - {p}) == Only(d, away);
      assert d - (away - {p}) == d - away;
    }
  }

  /** Moving a platform out or in, and no move lands on a folder that is there already. */
  lemma MoveTracks(t: Tree, away: set<string>, ps: set<string>, p: string)
    requires Clean(t, ps) && away <= ps && p in ps
    ensures ToTemp(Moved(t, away), p) == Moved(t, away + {p})
    ensures ToSdk(Moved(t, away), p) == Moved(t, away - {p})
  {
    MoveOut(t.libs, t.tmpLibs, away, ps, p);
    MoveOut(t.shared, t.tmpShared, away, ps, p);
    MoveIn(t.libs, t.tmpLibs, away, ps, p);
    MoveIn(t.shared, t.tmpShared, away, ps, p);
  }

  lemma {:induction false} AllOut(t: Tree, away: set<string>, ps: set<string>, todo: seq<string>)
    requires Clean(t, ps) && away <= ps && Set(todo) <= ps
    ensures AllToTemp(Moved(t, away), todo) == Moved(t, away + Set(todo))
    decreases |todo|
  {
    hide Moved, Clean;
    if todo == [] {
      assert away + Set(todo) == away;
    } else {
      var b, p := ButLast(todo), Last(todo);
      assert todo == b + [p];
      assert Set(b) <= ps && p in Set(todo);
      AllOut(t, away, ps, b);
      MoveTracks(t, away + Set(b), ps, p);
      assert (away + Set(b)) + {p} == away + Set(todo);
    }
  }

  lemma {:induction false} AllIn(t: Tree, away: set<string>, ps: set<string>, todo: seq<string>)
    requires Clean(t, ps) && away <= ps && Set(todo) <= ps
    ensures AllToSdk(Moved(t, away), todo) == Moved(t, away - Set(todo))
    decreases |todo|
  {
    hide Moved, Clean;
    if todo == [] {
      assert away - Set(todo) == away;
    } else {
      var b, p := ButLast(todo), Last(todo);
      assert todo == b + [p];
      assert Set(b) <= ps && p in Set(todo);
      AllIn(t, away, ps, b);
      MoveTracks(t, away - Set(b), ps, p);
      assert (away - Set(b)) - {p} == away - Set(todo);
    }
  }

  /** What archive i holds: the sdk without any listed platform but its own. */
  ghost predicate OwnFoldersOnly(t: Tree, ps: set<string>, a: Archive) {
    a.libs == t.libs - (ps - {a.platform}) && a.shared == t.shared - (ps - {a.platform})
  }

  lemma {:induction false} PackTracks(t: Tree, ps: seq<string>, todo: seq<string>)
    requires Clean(t, Set(ps)) && Set(todo) <= Set(ps)
    ensures var (u, archives) := Pack(t, ps, todo);
            && u == Moved(t, if todo == [] then {} else Set(ps) - {Last(todo)})
            && |archives| == |todo|
            && forall i | 0 <= i < |todo| ::
                 archives[i].platform == todo[i] && OwnFoldersOnly(t, Set(ps), archives[i])
    decreases |todo|
  {
    if todo == [] {
      NothingMoved(t);
    } else {
      var b, p := ButLast(todo), Last(todo);
      assert Set(b) <= Set(ps) && p in Set(todo);
      PackTracks(t, ps, b);
      PackNext(t, ps, b, p);
    }
  }

  lemma PackNext(t: Tree, ps: seq<string>, done: seq<string>, p: string)
    requires Clean(t, Set(ps)) && Set(done) <= Set(ps) && p in Set(ps)
    ensures var u := Moved(t, if done == [] then {} else Set(ps) - {Last(done)});
            ToSdk(AllToTemp(u, ps), p) == Moved(t, Set(ps) - {p})
  {
    hide Moved, Clean;
    var away := if done == [] then {} else Set(ps) - {Last(done)};
    AllOut(t, away, Set(ps), ps);
    assert away + Set(ps) == Set(ps);
    MoveTracks(t, Set(ps), Set(ps), p);
  }

  lemma NothingMoved(t: Tree)
    requires !t.failed
    ensures Moved(t, {}) == t
  {
    assert t.libs - {} == t.libs && t.shared - {} == t.shared;
    assert Only(t.libs, {}) == map[] && Only(t.shared, {}) == map[];
    assert t.tmpLibs + map[] == t.tmpLibs && t.tmpShared + map[] == t.tmpShared;
  }

  /** With a clean temp area, for any list of platforms, repeated ones included: no exception, one archive for each
      entry that holds exactly the sdk without the other listed platforms, and the tree as it was in the end. */
  lemma CleanRunRestoresTheTree(t: Tree, ps: seq<string>)
    requires Clean(t, Set(ps))
    ensures Run(t, ps) == t
    ensures var archives := Pack(t, ps, ps).1;
            && |archives| == |ps|
            && forall i | 0 <= i < |ps| ::
                 archives[i].platform == ps[i] && OwnFoldersOnly(t, Set(ps), archives[i])
  {
    PackTracks(t, ps, ps);
    var away := if ps == [] then {} else Set(ps) - {Last(ps)};
    AllIn(t, away, Set(ps), ps);
    assert away - Set(ps) == {};
    NothingMoved(t);
  }

  // ---- and only then ------------------------------------------------------------------------------------------

  lemma ToSdkEmptiesTemp(t: Tree, p: string)
    requires !ToSdk(t, p).failed
    ensures !t.failed
    ensures ToSdk(t, p).tmpLibs.Keys == t.tmpLibs.Keys - {p}
    ensures ToSdk(t, p).tmpShared.Keys == t.tmpShared.Keys - {p}
  {
  }

  lemma {:induction false} AllToSdkEmptiesTemp(t: Tree, ps: seq<string>)
    requires !AllToSdk(t, ps).failed
    ensures AllToSdk(t, ps).tmpLibs.Keys == t.tmpLibs.Keys - Set(ps)
    ensures AllToSdk(t, ps).tmpShared.Keys == t.tmpShared.Keys - Set(ps)
    decreases |ps|
  {
    hide ToSdk;
    if ps != [] {
      var b, p := ButLast(ps), Last(ps);
      ToSdkEmptiesTemp(AllToSdk(t, b), p);
      AllToSdkEmptiesTemp(t, b);
      assert ps == b + [p];
      assert Set(ps) == Set(b) + {p};
    }
  }

  /** The script puts the tree back exactly if the temp area held no listed platform when it started. */
  lemma RestoresExactlyWhenTempIsClean(t: Tree, ps: seq<string>)
    requires !t.failed
    ensures Run(t, ps) == t <==> Clean(t, Set(ps))
  {
    if Clean(t, Set(ps)) {
      CleanRunRestoresTheTree(t, ps);
    } else if !Run(t, ps).failed {
      AllToSdkEmptiesTemp(Pack(t, ps, ps).0, ps);
    }
  }
}
