/**
The path rule of the configuration store: which file a fragment source names at a level,
and from which directory the store is rooted (cli/config-adapters/src/store.rs,
cli/config/src/source.rs).
*/
module Paths {
  import opened Wrappers
  import opened ConfigService
  import opened Decimals

  // ---- Skill names ----

  predicate IsPermitted(c: char) {
    'a' <= c <= 'z' || 'A' <= c <= 'Z' || '0' <= c <= '9' || c == '-' || c == '_'
  }

  predicate IsSkillName(name: string) {
    name != "" && forall c | c in name :: IsPermitted(c)
  }

  type SkillName = name: string | IsSkillName(name) witness "a"

  function ParseSkillName(raw: string): (name: Option<SkillName>)
    ensures name.Some? ==> name.value == raw
    ensures name.None? <==> raw == "" || exists i :: 0 <= i < |raw| && !IsPermitted(raw[i])
  {
    if IsSkillName(raw) then Some(raw) else None
  }

  const UPPER := "ABCDEFGHIJKLMNOPQRSTUVWXYZ"
  const LOWER := "abcdefghijklmnopqrstuvwxyz"
  const DIGITS := "0123456789"

  lemma UpperIff(c: char)
    ensures 'A' <= c <= 'Z' <==> c in UPPER
  {
    if 'A' <= c <= 'Z' {
      assert UPPER[c as int - 65] == c;
    }
  }

  lemma LowerIff(c: char)
    ensures 'a' <= c <= 'z' <==> c in LOWER
  {
    if 'a' <= c <= 'z' {
      assert LOWER[c as int - 97] == c;
    }
  }

  /** The allow-list, character by character. */
  lemma PermittedIff(c: char)
    ensures IsPermitted(c) <==> c in UPPER || c in LOWER || c in DIGITS || c == '-' || c == '_'
  {
    UpperIff(c);
    LowerIff(c);
    if '0' <= c <= '9' {
      assert DIGITS[c as int - 48] == c;
    }
  }

  // ---- Files, as the components below the file system's root ----

  type FilePath = seq<string>

  datatype FragmentSource = ProjectContext | SkillContext(name: SkillName) | SkillInstructions(name: SkillName)

  const CONFIG_DIR := ".luminosity"

  function Qualifier(level: Level): string {
    match level case Team => "" case Personal => ".local"
  }

  function ConfigDir(root: FilePath): FilePath {
    root + [CONFIG_DIR]
  }

  function ConfigPath(root: FilePath, level: Level): FilePath {
    ConfigDir(root) + ["config" + Qualifier(level) + ".md"]
  }

  /** Where a fragment lies below the config directory. */
  function FragmentTail(source: FragmentSource, level: Level): FilePath {
    match source
    case ProjectContext => ["config" + Qualifier(level) + ".md"]
    case SkillContext(name) => ["skills", name, "context" + Qualifier(level) + ".md"]
    case SkillInstructions(name) => ["skills", name, "instructions" + Qualifier(level) + ".md"]
  }

  function FragmentPath(root: FilePath, source: FragmentSource, level: Level): FilePath {
    ConfigDir(root) + FragmentTail(source, level)
  }

  function TempDir(root: FilePath): FilePath {
    ConfigDir(root) + ["tmp"]
  }

  /** The name carries the process and the number of its write. */
  function TempPath(root: FilePath, pid: Pid, write: nat): FilePath {
    TempDir(root) + ["config-" + Decimal(pid) + "-" + Decimal(write) + ".tmp"]
  }

  /** The path as the operating system is given it. */
  function Spelled(path: FilePath): string {
    if path == [] then "" else "/" + path[0] + Spelled(path[1..])
  }

  /** A single step down: not empty, no separator in it, and not a step to where one is or came from. */
  predicate IsPlain(component: string) {
    component != "" && '/' !in component && component != "." && component != ".."
  }

  predicate IsPlainPath(path: FilePath) {
    forall i | 0 <= i < |path| :: IsPlain(path[i])
  }

  lemma {:induction false} SpelledInjective(p: FilePath, q: FilePath)
    requires IsPlainPath(p) && IsPlainPath(q) && Spelled(p) == Spelled(q)
    ensures p == q
  {
    if p != [] && q != [] {
      var tail, tail' := Spelled(p[1..]), Spelled(q[1..]);
      assert Spelled(p)[1..] == p[0] + tail && Spelled(q)[1..] == q[0] + tail';
      SameHead(p[0], tail, q[0], tail');
      SpelledInjective(p[1..], q[1..]);
    }
  }

  lemma SameHead(a: string, tail: string, b: string, tail': string)
    requires '/' !in a && '/' !in b && a + tail == b + tail'
    requires (tail == "" || tail[0] == '/') && (tail' == "" || tail'[0] == '/')
    ensures a == b && tail == tail'
  {
    var whole := a + tail;
    assert whole == b + tail';
    assert (forall i | 0 <= i < |a| :: whole[i] in a) && (forall i | 0 <= i < |b| :: whole[i] in b);
    assert (tail != "" ==> whole[|a|] == '/') && (tail' != "" ==> whole[|b|] == '/');
    assert whole[..|a|] == a && whole[..|b|] == b && whole[|a|..] == tail && whole[|b|..] == tail';
  }

  lemma SkillNameIsPlain(name: SkillName)
    ensures IsPlain(name)
  {
    assert name[0] in name;
  }

  lemma FileNameIsPlain(base: string, level: Level)
    requires IsSkillName(base)
    ensures IsPlain(base + Qualifier(level) + ".md")
  {
    var name := base + Qualifier(level) + ".md";
    assert name[0] == base[0] && base[0] in base;
    forall i | 0 <= i < |name| ensures name[i] != '/' {
      assert i < |base| ==> name[i] == base[i] && base[i] in base;
      assert |base| <= i < |base| + |Qualifier(level)| ==> name[i] == Qualifier(level)[i - |base|];
    }
  }

  /** Every fragment lies strictly below the config directory, by plain steps down, whatever the skill is called. */
  lemma FragmentStaysInside(root: FilePath, source: FragmentSource, level: Level)
    ensures ConfigDir(root) < FragmentPath(root, source, level)
    ensures IsPlainPath(FragmentPath(root, source, level)[|root| + 1..])
  {
    assert FragmentPath(root, source, level)[|root| + 1..] == FragmentTail(source, level);
    match source {
      case ProjectContext =>
        FileNameIsPlain("config", level);
      case SkillContext(name) =>
        SkillNameIsPlain(name);
        FileNameIsPlain("context", level);
      case SkillInstructions(name) =>
        SkillNameIsPlain(name);
        FileNameIsPlain("instructions", level);
    }
  }

  lemma {:induction false} SpelledAppend(p: FilePath, q: FilePath)
    ensures Spelled(p + q) == Spelled(p) + Spelled(q)
  {
    if p == [] {
      assert p + q == q;
    } else {
      SpelledAppend(p[1..], q);
      assert (p + q)[1..] == p[1..] + q;
    }
  }

  /** Distinct sources and levels name distinct files, as paths and as they are spelled. */
  lemma FragmentPathInjective(root: FilePath, a: FragmentSource, la: Level, b: FragmentSource, lb: Level)
    requires Spelled(FragmentPath(root, a, la)) == Spelled(FragmentPath(root, b, lb))
    ensures a == b && la == lb
  {
    var p, q := FragmentTail(a, la), FragmentTail(b, lb);
    FragmentStaysInside(root, a, la);
    FragmentStaysInside(root, b, lb);
    assert FragmentPath(root, a, la)[|root| + 1..] == p && FragmentPath(root, b, lb)[|root| + 1..] == q;
    SpelledAppend(ConfigDir(root), p);
    SpelledAppend(ConfigDir(root), q);
    var front := Spelled(ConfigDir(root));
    assert (front + Spelled(p))[|front|..] == Spelled(p) && (front + Spelled(q))[|front|..] == Spelled(q);
    SpelledInjective(p, q);
    FileNamesDiffer(la, lb);
    assert p[|p| - 1] == q[|q| - 1];
  }

  lemma FileNamesDiffer(la: Level, lb: Level)
    ensures "config" + Qualifier(la) + ".md" == "config" + Qualifier(lb) + ".md" ==> la == lb
    ensures "context" + Qualifier(la) + ".md" == "context" + Qualifier(lb) + ".md" ==> la == lb
    ensures "instructions" + Qualifier(la) + ".md" == "instructions" + Qualifier(lb) + ".md" ==> la == lb
    ensures "context" + Qualifier(la) + ".md" != "instructions" + Qualifier(lb) + ".md"
  {
    assert ("context" + Qualifier(la) + ".md")[0] == 'c';
    assert ("instructions" + Qualifier(lb) + ".md")[0] == 'i';
    assert |"context" + Qualifier(Team) + ".md"| != |"context" + Qualifier(Personal) + ".md"|;
    assert |"config" + Qualifier(Team) + ".md"| != |"config" + Qualifier(Personal) + ".md"|;
    assert |"instructions" + Qualifier(Team) + ".md"| != |"instructions" + Qualifier(Personal) + ".md"|;
  }

  /** A write's temporary file is no fragment's file, and no two writes share one. */
  lemma TempPathApart(root: FilePath, pid: Pid, write: nat, source: FragmentSource, level: Level, pid': Pid,
                      write': nat)
    ensures TempPath(root, pid, write) != FragmentPath(root, source, level)
    ensures TempPath(root, pid, write) == TempPath(root, pid', write') ==> pid == pid' && write == write'
  {
    var temp, temp' := TempPath(root, pid, write), TempPath(root, pid', write');
    var path := FragmentPath(root, source, level);
    assert temp[|root| + 1] == "tmp";
    if source.ProjectContext? {
      assert |path| == |root| + 2 && |temp| == |root| + 3;
    } else {
      assert path[|root| + 1] == "skills";
    }
    if temp == temp' {
      TempNameInjective(pid, write, pid', write', temp[|root| + 2], temp'[|root| + 2]);
    }
  }

  lemma TempNameInjective(pid: Pid, write: nat, pid': Pid, write': nat, name: string, name': string)
    requires name == "config-" + Decimal(pid) + "-" + Decimal(write) + ".tmp"
    requires name' == "config-" + Decimal(pid') + "-" + Decimal(write') + ".tmp" && name == name'
    ensures pid == pid' && write == write'
  {
    var front, front' := "config-" + Decimal(pid), "config-" + Decimal(pid');
    assert name[..|name| - 4] == front + "-" + Decimal(write);
    assert name'[..|name'| - 4] == front' + "-" + Decimal(write');
    LastNumeral(front, write, front', write');
    assert front[7..] == Decimal(pid) && front'[7..] == Decimal(pid');
    DecimalInjective(pid, pid');
  }

  // ---- Discovery ----

  datatype FileSystem = FileSystem(files: map<FilePath, string>, dirs: set<FilePath>) {
    predicate Exists(path: FilePath) {
      path in files || path in dirs
    }
  }

  const GIT := ".git"

  predicate IsMarked(fs: FileSystem, dir: FilePath) {
    ConfigDir(dir) in fs.dirs || fs.Exists(dir + [GIT])
  }

  function Parent(dir: FilePath): FilePath
    requires dir != []
  {
    dir[..|dir| - 1]
  }

  /** The nearest marked directory on the way up. */
  function Nearest(fs: FileSystem, dir: FilePath): Option<FilePath>
    decreases |dir|
  {
    if IsMarked(fs, dir) then Some(dir)
    else if dir == [] then None
    else Nearest(fs, Parent(dir))
  }

  function DiscoverRoot(fs: FileSystem, start: FilePath): FilePath {
    match Nearest(fs, start)
    case Some(dir) => dir
    case None => start
  }

  method Discover(fs: FileSystem, start: FilePath) returns (root: FilePath)
    ensures root == DiscoverRoot(fs, start)
  {
    var ancestor := Some(start);
    while ancestor.Some?
      invariant ancestor.Some? ==> Nearest(fs, ancestor.value) == Nearest(fs, start)
      invariant ancestor.None? ==> Nearest(fs, start).None?
      decreases if ancestor.Some? then |ancestor.value| + 1 else 0
    {
      var dir := ancestor.value;
      if IsMarked(fs, dir) {
        return dir;
      }
      ancestor := if dir == [] then None else Some(Parent(dir));
    }
    root := start;
  }

  /** The directory itself, or one on the way up from it. */
  predicate IsAncestor(dir: FilePath, start: FilePath) {
    dir <= start
  }

  /** A marked ancestor with no nearer one marked. */
  ghost predicate IsNearest(fs: FileSystem, start: FilePath, root: FilePath) {
    && IsAncestor(root, start) && IsMarked(fs, root)
    && forall dir | IsAncestor(dir, start) && |dir| > |root| :: !IsMarked(fs, dir)
  }

  lemma AncestorIff(dir: FilePath, start: FilePath)
    requires start != []
    ensures IsAncestor(dir, start) <==> dir == start || IsAncestor(dir, Parent(start))
  {
    if dir <= start && dir != start {
      assert dir == start[..|dir|] == Parent(start)[..|dir|];
    }
  }

  lemma {:induction false} NearestIff(fs: FileSystem, start: FilePath, root: FilePath)
    ensures Nearest(fs, start) == Some(root) <==> IsNearest(fs, start, root)
    decreases |start|
  {
    if IsMarked(fs, start) {
      assert IsAncestor(start, start) && start[..|start|] == start;
      assert IsAncestor(root, start) ==> root == start[..|root|];
    } else if start != [] {
      NearestIff(fs, Parent(start), root);
      forall dir ensures IsAncestor(dir, start) <==> dir == start || IsAncestor(dir, Parent(start)) {
        AncestorIff(dir, start);
      }
    }
  }

  // ---- A write, as the file system sees it ----

  predicate Unchanged(fs: FileSystem, fs': FileSystem, path: FilePath) {
    (path in fs'.files <==> path in fs.files) && (path in fs.files ==> fs'.files[path] == fs.files[path])
  }

  /**
  Writing a target through a temporary file: the directories down to the temporary one are
  created where missing; the target holds all of the contents, or what it held before.
  */
  ghost predicate IsWrite(fs: FileSystem, fs': FileSystem, root: FilePath, temp: FilePath, target: FilePath,
                          contents: string, ok: bool)
  {
    && fs.dirs <= fs'.dirs
    && (forall dir | dir in fs'.dirs :: dir in fs.dirs || dir <= TempDir(root))
    && (forall path | path != temp && path != target :: Unchanged(fs, fs', path))
    && (if ok
        then
          && target in fs'.files && fs'.files[target] == contents && temp !in fs'.files
          && ConfigDir(root) in fs'.dirs && TempDir(root) in fs'.dirs
        else Unchanged(fs, fs', target))
  }

  /** A directory that exists lies in directories that exist. */
  ghost predicate IsReachable(fs: FileSystem, dir: FilePath) {
    forall ancestor | IsAncestor(ancestor, dir) :: ancestor in fs.dirs
  }

  lemma PrefixOfTempDir(root: FilePath, dir: FilePath)
    requires dir <= TempDir(root)
    ensures dir <= root || dir == ConfigDir(root) || dir == TempDir(root)
  {
    assert dir == TempDir(root)[..|dir|];
  }

  /** Neither the temporary file nor the target is called like a mark. */
  lemma NotMarks(root: FilePath, pid: Pid, write: nat, level: Level, dir: FilePath)
    ensures dir + [GIT] != TempPath(root, pid, write) && dir + [GIT] != ConfigPath(root, level)
    ensures dir + [GIT] != ConfigDir(root) && dir + [GIT] != TempDir(root) && ConfigDir(dir) != TempDir(root)
    ensures ConfigDir(dir) == ConfigDir(root) ==> dir == root
  {
    var git, config := dir + [GIT], ConfigDir(dir);
    assert git[|git| - 1] == GIT && config[|config| - 1] == CONFIG_DIR;
    assert TempPath(root, pid, write)[|root| + 2][0] == 'c' && ConfigPath(root, level)[|root| + 1][0] == 'c';
    assert config[..|config| - 1] == dir && ConfigDir(root)[..|ConfigDir(root)| - 1] == root;
  }

  /** The only mark a write can set is that of the root it writes below, and a successful one does. */
  lemma WriteMarksRootOnly(fs: FileSystem, fs': FileSystem, root: FilePath, pid: Pid, write: nat, level: Level,
                           contents: string, ok: bool, dir: FilePath)
    requires IsReachable(fs, root)
    requires IsWrite(fs, fs', root, TempPath(root, pid, write), ConfigPath(root, level), contents, ok)
    ensures IsMarked(fs, dir) ==> IsMarked(fs', dir)
    ensures IsMarked(fs', dir) ==> IsMarked(fs, dir) || dir == root
    ensures ok && dir == root ==> IsMarked(fs', dir)
  {
    var config, git := ConfigDir(dir), dir + [GIT];
    NotMarks(root, pid, write, level, dir);
    assert Unchanged(fs, fs', git);
    if config in fs'.dirs && config !in fs.dirs {
      PrefixOfTempDir(root, config);
    }
    if git in fs'.dirs && git !in fs.dirs {
      PrefixOfTempDir(root, git);
    }
  }

  lemma {:induction false} NearestIsShort(fs: FileSystem, dir: FilePath)
    ensures Nearest(fs, dir).Some? ==> |Nearest(fs, dir).value| <= |dir|
    decreases |dir|
  {
    if !IsMarked(fs, dir) && dir != [] {
      NearestIsShort(fs, Parent(dir));
    }
  }

  /** Where discovery leads once one more directory is marked. */
  lemma {:induction false} NearestWithMark(fs: FileSystem, fs': FileSystem, root: FilePath, dir: FilePath)
    requires forall d :: IsMarked(fs', d) <==> IsMarked(fs, d) || (d == root && IsMarked(fs', root))
    ensures Nearest(fs', dir)
            == if IsAncestor(root, dir) && IsMarked(fs', root)
              && (Nearest(fs, dir).None? || |Nearest(fs, dir).value| <= |root|)
               then Some(root) else Nearest(fs, dir)
    decreases |dir|
  {
    assert IsMarked(fs', dir) <==> IsMarked(fs, dir) || (dir == root && IsMarked(fs', root));
    NearestIsShort(fs, dir);
    assert IsAncestor(root, root);
    if dir != [] {
      AncestorIff(root, dir);
      NearestWithMark(fs, fs', root, Parent(dir));
    }
  }

  /**
  After a write, even one that failed on the way, discovery finds the written root from
  every directory below it that has no nearer mark of its own, provided the root is marked
  by then; from everywhere else it finds what it found before.
  */
  lemma DiscoveryAfterWrite(fs: FileSystem, fs': FileSystem, root: FilePath, pid: Pid, write: nat, level: Level,
                            contents: string, ok: bool, dir: FilePath)
    requires IsReachable(fs, root)
    requires IsWrite(fs, fs', root, TempPath(root, pid, write), ConfigPath(root, level), contents, ok)
    ensures ok ==> IsMarked(fs', root)
    ensures Nearest(fs', dir)
            == if IsAncestor(root, dir) && IsMarked(fs', root)
              && (Nearest(fs, dir).None? || |Nearest(fs, dir).value| <= |root|)
               then Some(root) else Nearest(fs, dir)
  {
    forall d ensures IsMarked(fs', d) <==> IsMarked(fs, d) || (d == root && IsMarked(fs', root)) {
      WriteMarksRootOnly(fs, fs', root, pid, write, level, contents, ok, d);
    }
    WriteMarksRootOnly(fs, fs', root, pid, write, level, contents, ok, root);
    NearestWithMark(fs, fs', root, dir);
  }

  /**
  A write below the discovered root keeps it the root, from the start directory and every
  directory between the two.
  */
  lemma WriteKeepsDiscovery(fs: FileSystem, fs': FileSystem, start: FilePath, pid: Pid, write: nat, level: Level,
                            contents: string, ok: bool, dir: FilePath)
    requires IsReachable(fs, start)
    requires var root := DiscoverRoot(fs, start);
             && IsAncestor(root, dir) && IsAncestor(dir, start)
             && IsWrite(fs, fs', root, TempPath(root, pid, write), ConfigPath(root, level), contents, ok)
    ensures DiscoverRoot(fs', dir) == DiscoverRoot(fs, start)
  {
    var root := DiscoverRoot(fs, start);
    if Nearest(fs, start).Some? {
      NearestIff(fs, start, root);
      assert forall d | IsAncestor(d, dir) :: IsAncestor(d, start);
      NearestIff(fs, dir, root);
    } else {
      assert dir == start[..|dir|] == start;
    }
    assert forall d | IsAncestor(d, root) :: IsAncestor(d, start);
    DiscoveryAfterWrite(fs, fs', root, pid, write, level, contents, ok, dir);
  }

  // ---- The names themselves ----

  lemma SpelledOne(name: string)
    ensures Spelled([name]) == "/" + name
  {
    assert [name][1..] == [] && Spelled([]) == "";
    assert ("/" + name) + "" == "/" + name;
  }

  lemma SpelledCons(first: string, rest: FilePath)
    ensures Spelled([first] + rest) == "/" + first + Spelled(rest)
  {
    assert ([first] + rest)[1..] == rest;
  }

  lemma SpelledInSkill(name: string, file: string)
    ensures Spelled(["skills", name, file]) == "/skills" + ("/" + name + ("/" + file))
  {
    SpelledOne(file);
    SpelledCons(name, [file]);
    SpelledCons("skills", [name] + [file]);
    assert ["skills"] + ([name] + [file]) == ["skills", name, file] && "/" + "skills" == "/skills";
  }

  lemma SpelledInConfigDir(root: FilePath, tail: FilePath)
    ensures Spelled(ConfigDir(root) + tail) == Spelled(root) + "/.luminosity" + Spelled(tail)
  {
    SpelledAppend(ConfigDir(root), tail);
    SpelledAppend(root, [CONFIG_DIR]);
    SpelledOne(CONFIG_DIR);
    assert "/" + CONFIG_DIR == "/.luminosity";
  }

  lemma FileNames(level: Level)
    ensures var local := if level.Personal? then ".local.md" else ".md";
            && "config" + Qualifier(level) + ".md" == "config" + local
            && "context" + Qualifier(level) + ".md" == "context" + local
            && "instructions" + Qualifier(level) + ".md" == "instructions" + local
  {
    assert Qualifier(level) + ".md" == if level.Personal? then ".local.md" else ".md";
    FileName("config", Qualifier(level));
    FileName("context", Qualifier(level));
    FileName("instructions", Qualifier(level));
  }

  lemma FileName(base: string, qualifier: string)
    ensures base + qualifier + ".md" == base + (qualifier + ".md")
  {
  }

  /**
  Where every fragment is, as the operating system is given it: the settings themselves, or a file in
  the skill's own directory; the personal one is the `.local` one.
  */
  lemma FragmentPathSpelled(root: FilePath, source: FragmentSource, level: Level)
    ensures var local := if level.Personal? then ".local.md" else ".md";
            Spelled(FragmentPath(root, source, level))
            == Spelled(root) + "/.luminosity"
               + match source
                 case ProjectContext => "/" + ("config" + local)
                 case SkillContext(name) => "/skills" + ("/" + name + ("/" + ("context" + local)))
                 case SkillInstructions(name) => "/skills" + ("/" + name + ("/" + ("instructions" + local)))
  {
    FileNames(level);
    SpelledInConfigDir(root, FragmentTail(source, level));
    match source {
      case ProjectContext => SpelledOne("config" + Qualifier(level) + ".md");
      case SkillContext(name) => SpelledInSkill(name, "context" + Qualifier(level) + ".md");
      case SkillInstructions(name) => SpelledInSkill(name, "instructions" + Qualifier(level) + ".md");
    }
  }

  /**
  A directory is the root found exactly when it is an ancestor holding `.git` or the directory
  `.luminosity`, and none below it on the way does; without any, the start itself is taken.
  */
  lemma DiscoverIff(fs: FileSystem, start: FilePath, root: FilePath)
    ensures DiscoverRoot(fs, start) == root
            <==> || (IsAncestor(root, start) && HoldsMark(fs, root)
                     && forall dir | IsAncestor(dir, start) && |dir| > |root| :: !HoldsMark(fs, dir))
                 || (root == start && forall dir | IsAncestor(dir, start) :: !HoldsMark(fs, dir))
  {
    NearestIff(fs, start, root);
    if Nearest(fs, start).Some? {
      NearestIff(fs, start, Nearest(fs, start).value);
      assert IsMarked(fs, Nearest(fs, start).value);
    } else {
      NoneIff(fs, start);
    }
  }

  predicate HoldsMark(fs: FileSystem, dir: FilePath) {
    dir + [".git"] in fs.files || dir + [".git"] in fs.dirs || dir + [".luminosity"] in fs.dirs
  }

  lemma {:induction false} NoneIff(fs: FileSystem, start: FilePath)
    ensures Nearest(fs, start).None? <==> forall dir | IsAncestor(dir, start) :: !IsMarked(fs, dir)
    decreases |start|
  {
    assert IsAncestor(start, start);
    if !IsMarked(fs, start) && start != [] {
      NoneIff(fs, Parent(start));
      forall dir ensures IsAncestor(dir, start) <==> dir == start || IsAncestor(dir, Parent(start)) {
        AncestorIff(dir, start);
      }
    }
  }
}
