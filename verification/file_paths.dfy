/** Which file a path string opens. */
module FilePaths {
  import opened Bytes

  const NUL: Byte := 0
  const DOT: Byte := 46
  const SLASH: Byte := 47

  /** The names that lead to a file, seen from where all paths of one service start. */
  type Path = seq<Text>

  /** The name of a directory; a C string ends at its first NUL byte. */
  type Directory = t: Text | NUL !in t

  /** What the system call sees of a std::string handed to it as a C string. */
  function CString(t: Text): Text {
    t[..IndexOf(t, NUL)]
  }

  /** Names that lead nowhere else: // and /./ */
  function Step(name: Text): Path {
    if name == [] || name == [DOT] then [] else [name]
  }

  /** The names along a path. The last one is kept whatever it is: behind a final slash it is empty, and
      no file has such a name. */
  function Names(t: Text): Path
    decreases |t|
  {
    var n := IndexOf(t, SLASH);
    if n == |t| then [t] else Step(t[..n]) + Names(t[n + 1..])
  }

  /** The names of a directory's path. */
  function Steps(dir: Text): Path
    decreases |dir|
  {
    var n := IndexOf(dir, SLASH);
    if n == |dir| then Step(dir) else Step(dir[..n]) + Steps(dir[n + 1..])
  }

  /** A name that no directory entry has, or that leads to a directory. */
  predicate Special(name: Text) {
    name == [] || name == [DOT] || name == [DOT, DOT]
  }

  /** The names lead to an entry of the directory itself. */
  predicate Entry(dir: Directory, names: Path) {
    |names| == |Steps(dir)| + 1 && names[..|Steps(dir)|] == Steps(dir) && !Special(names[|Steps(dir)|])
  }

  /** The file a path opens. Each entry of dir is a file of its own. Where other names lead, over .., links
      and further directories, is up to the file system: anywhere, into dir as well. */
  function FileAt(dir: Directory, elsewhere: Path -> Path, path: Text): Path {
    var names := Names(CString(path));
    if Entry(dir, names) then names else elsewhere(names)
  }

  lemma NamesStep(head: Text, t: Text)
    requires SLASH !in head
    ensures Names(head + [SLASH] + t) == Step(head) + Names(t)
  {
    hide IndexOf, Step;
    var path := head + [SLASH] + t;
    IndexOfAt(head, SLASH, t);
    assert path[..|head|] == head && path[|head| + 1..] == t;
  }

  lemma Split(dir: Text, n: nat, t: Text)
    requires n < |dir| && dir[n] == SLASH
    ensures dir + [SLASH] + t == dir[..n] + [SLASH] + (dir[n + 1..] + [SLASH] + t)
  {
  }

  lemma {:induction false} NamesBelow(dir: Text, t: Text)
    ensures Names(dir + [SLASH] + t) == Steps(dir) + Names(t)
    decreases |dir|
  {
    hide Names, Step, IndexOf;
    var n := IndexOf(dir, SLASH);
    if n == |dir| {
      assert dir[..n] == dir;
      NamesStep(dir, t);
    } else {
      var rest := dir[n + 1..];
      Split(dir, n, t);
      NamesStep(dir[..n], rest + [SLASH] + t);
      NamesBelow(rest, t);
    }
  }

  lemma NamesSingle(name: Text)
    requires SLASH !in name
    ensures Names(name) == [name]
  {
    IndexOfNone(name, SLASH);
  }

  lemma CStringWhole(t: Text)
    requires NUL !in t
    ensures CString(t) == t
  {
    IndexOfNone(t, NUL);
  }

  /** A name without slash and NUL names its own file of the directory. */
  lemma FileBelow(dir: Directory, elsewhere: Path -> Path, name: Text)
    requires SLASH !in name && NUL !in name && !Special(name)
    ensures FileAt(dir, elsewhere, dir + [SLASH] + name) == Steps(dir) + [name]
  {
    hide Names, Steps;
    CStringWhole(dir + [SLASH] + name);
    NamesBelow(dir, name);
    NamesSingle(name);
  }

  lemma CStringBelow(dir: Directory, t: Text)
    ensures CString(dir + [SLASH] + t) == dir + [SLASH] + t[..IndexOf(t, NUL)]
  {
    hide IndexOf;
    var path, n := dir + [SLASH] + t, IndexOf(t, NUL);
    assert path[..|dir| + 1 + n] == dir + [SLASH] + t[..n];
    IndexOfIs(path, NUL, |dir| + 1 + n);
  }

  /** A leading ./ makes no difference. */
  lemma DotSlash(dir: Directory, elsewhere: Path -> Path, t: Text)
    ensures FileAt(dir, elsewhere, dir + [SLASH] + ([DOT, SLASH] + t)) == FileAt(dir, elsewhere, dir + [SLASH] + t)
  {
    hide Names, IndexOf, Entry;
    var plain, dotted := dir + [SLASH] + t, dir + [SLASH] + ([DOT, SLASH] + t);
    var n := IndexOf(t, NUL);
    CStringBelow(dir, t);
    CStringBelow(dir, [DOT, SLASH] + t);
    IndexOfIs([DOT, SLASH] + t, NUL, n + 2);
    assert ([DOT, SLASH] + t)[..n + 2] == [DOT] + [SLASH] + t[..n];
    NamesBelow(dir, t[..n]);
    NamesBelow(dir, [DOT] + [SLASH] + t[..n]);
    NamesStep([DOT], t[..n]);
    assert Step([DOT]) + Names(t[..n]) == Names(t[..n]);
  }

  /** The directory's own name leads back from its parent. */
  ghost predicate FollowsParent(dir: Directory, elsewhere: Path -> Path, base: Text) {
    forall name :: Entry(dir, Steps(dir) + [name]) ==>
      elsewhere(Steps(dir) + ([[DOT, DOT], base] + [name])) == Steps(dir) + [name]
  }

  /** So a detour through the parent makes no difference either. */
  lemma ParentSlash(dir: Directory, elsewhere: Path -> Path, base: Text, name: Text)
    requires FollowsParent(dir, elsewhere, base)
    requires SLASH !in base && NUL !in base && !Special(base)
    requires SLASH !in name && NUL !in name && !Special(name)
    ensures FileAt(dir, elsewhere, dir + [SLASH] + ([DOT, DOT] + [SLASH] + (base + [SLASH] + name)))
         == FileAt(dir, elsewhere, dir + [SLASH] + name)
  {
    hide Names, Steps, IndexOf;
    var detour := [DOT, DOT] + [SLASH] + (base + [SLASH] + name);
    FileBelow(dir, elsewhere, name);
    CStringWhole(dir + [SLASH] + detour);
    NamesBelow(dir, detour);
    NamesStep([DOT, DOT], base + [SLASH] + name);
    NamesStep(base, name);
    NamesSingle(name);
    assert Names(detour) == [[DOT, DOT], base] + [name];
    assert Entry(dir, Steps(dir) + [name]);
  }
}
