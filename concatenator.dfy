/** A model of `concatenate_code`: walk a directory tree top-down, prune
    excluded subdirectory names before descending, keep the files whose
    names end with one of the configured extensions, and write one
    banner-plus-contents block per kept file into a single output text. */
module Concatenator {

  datatype Option<T> = None | Some(value: T)

  /** What reading a file gives: its whole text, or the message of the
      exception raised while opening or decoding it. */
  datatype ReadResult = Contents(text: string) | ReadFailed(message: string)

  /** The directory tree as the walk sees it. The order of `children` is the
      order of the directory listing; an unreadable directory is a `Dir`
      with no children. */
  datatype Entry =
    | File(name: string, read: ReadResult)
    | Dir(name: string, children: seq<Entry>)

  datatype Config = Config(extensions: seq<string>, excludeDirs: seq<string>)

  /** A kept file: the names of the directories between the root and the
      file (the root's own name excluded), the file's name, and its read. */
  datatype Item = Item(dirs: seq<string>, name: string, read: ReadResult)

  const DefaultExtensions: seq<string> :=
    [".py", ".js", ".jsx", ".ts", ".tsx", ".java", ".cpp", ".c", ".h", ".hpp"]

  const DefaultExcludeDirs: seq<string> :=
    ["node_modules", "venv", ".git", "__pycache__", "build", "dist"]

  /** A missing argument takes its default list; a given one, even an empty
      list, is used as it is. */
  function ResolveConfig(extensions: Option<seq<string>>, excludeDirs: Option<seq<string>>): (c: Config)
    ensures extensions.None? ==> c.extensions == DefaultExtensions
    ensures extensions.Some? ==> c.extensions == extensions.value
    ensures excludeDirs.None? ==> c.excludeDirs == DefaultExcludeDirs
    ensures excludeDirs.Some? ==> c.excludeDirs == excludeDirs.value
  {
    Config(if extensions.Some? then extensions.value else DefaultExtensions,
           if excludeDirs.Some? then excludeDirs.value else DefaultExcludeDirs)
  }

  // ---------------------------------------------------------------------
  // Filters

  predicate EndsWith(s: string, suffix: string) {
    |suffix| <= |s| && s[|s| - |suffix|..] == suffix
  }

  /** `any(file.endswith(ext) for ext in extensions)`: a case-sensitive
      suffix test; the empty extension matches every name. */
  predicate HasExtension(name: string, extensions: seq<string>)
    ensures "" in extensions ==> HasExtension(name, extensions)
  {
    exists ext :: ext in extensions && EndsWith(name, ext)
  }

  /** The subdirectories the walk descends into: the directory entries of a
      listing, in listing order, minus those whose name is excluded. */
  function Prune(entries: seq<Entry>, excludeDirs: seq<string>): (dirs: seq<Entry>)
    ensures forall e :: e in dirs <==> e in entries && e.Dir? && e.name !in excludeDirs
  {
    if entries == [] then []
    else
      var last := entries[|entries| - 1];
      Prune(entries[..|entries| - 1], excludeDirs)
        + (if last.Dir? && last.name !in excludeDirs then [last] else [])
  }

  // ---------------------------------------------------------------------
  // The walk, as a specification

  /** The kept files directly inside one listing, in listing order; `path`
      names the directories from the root down to this one. */
  function FileItems(entries: seq<Entry>, path: seq<string>, cfg: Config): seq<Item> {
    if entries == [] then []
    else
      var last := entries[|entries| - 1];
      FileItems(entries[..|entries| - 1], path, cfg)
        + (if last.File? && HasExtension(last.name, cfg.extensions)
           then [Item(path, last.name, last.read)] else [])
  }

  /** Top-down walk of directory `d`: its own kept files first, then the
      walks of its pruned subdirectories in listing order. */
  function Walk(d: Entry, path: seq<string>, cfg: Config): seq<Item>
    requires d.Dir?
    decreases d, 1
  {
    FileItems(d.children, path, cfg) + WalkAll(d, Prune(d.children, cfg.excludeDirs), path, cfg)
  }

  function WalkAll(d: Entry, subdirs: seq<Entry>, path: seq<string>, cfg: Config): seq<Item>
    requires d.Dir?
    requires forall e :: e in subdirs ==> e in d.children && e.Dir?
    decreases d, 0, |subdirs|
  {
    if subdirs == [] then []
    else
      var last := subdirs[|subdirs| - 1];
      WalkAll(d, subdirs[..|subdirs| - 1], path, cfg) + Walk(last, path + [last.name], cfg)
  }

  /** The kept files of the tree rooted at `directory`. A root that is not a
      directory yields nothing, as `os.walk` yields nothing for it. */
  function Selection(directory: Entry, cfg: Config): seq<Item> {
    if directory.Dir? then Walk(directory, [], cfg) else []
  }

  // ---------------------------------------------------------------------
  // The output text

  /** The separator line, `'=' * 80`. */
  function Rule(): string {
    seq(80, _ => '=')
  }

  /** Directory names below the root and the file name, joined by "/". */
  function RelPath(dirs: seq<string>, name: string): string {
    if dirs == [] then name else dirs[0] + "/" + RelPath(dirs[1..], name)
  }

  function Banner(rel: string): string {
    "\n" + Rule() + "\n" + "File: " + rel + "\n" + Rule() + "\n\n"
  }

  function Body(read: ReadResult): string {
    match read
    case Contents(text) => text
    case ReadFailed(message) => "Error reading file: " + message + "\n"
  }

  function Block(it: Item): string {
    Banner(RelPath(it.dirs, it.name)) + Body(it.read)
  }

  /** The texts of a sequence of parts, one after the other. */
  function Concat(parts: seq<string>): string {
    if parts == [] then [] else Concat(parts[..|parts| - 1]) + parts[|parts| - 1]
  }

  function Blocks(items: seq<Item>): seq<string> {
    if items == [] then [] else Blocks(items[..|items| - 1]) + [Block(items[|items| - 1])]
  }

  /** The blocks of the items, in order, with nothing between them. */
  function Render(items: seq<Item>): string {
    Concat(Blocks(items))
  }

  /** The whole output text for a tree and a configuration. */
  function Concatenation(directory: Entry, cfg: Config): string {
    Render(Selection(directory, cfg))
  }

  // ---------------------------------------------------------------------
  // Where a file sits in the tree

  /** `f` is a file directly inside the directory reached from `d` by
      descending through subdirectories named `dirs[0]`, `dirs[1]`, … */
  ghost predicate Contains(d: Entry, dirs: seq<string>, f: Entry)
    decreases dirs
  {
    d.Dir? && f.File? &&
    if dirs == [] then f in d.children
    else exists c :: c in d.children && c.Dir? && c.name == dirs[0] && Contains(c, dirs[1..], f)
  }

  /** The selection rule stated directly on the tree: the file sits below
      `d` at `dirs`, its name has a configured extension, and no directory
      on the way down is excluded. The name of `d` itself is not tested. */
  ghost predicate Kept(d: Entry, dirs: seq<string>, f: Entry, cfg: Config) {
    Contains(d, dirs, f) && HasExtension(f.name, cfg.extensions)
    && forall n :: n in dirs ==> n !in cfg.excludeDirs
  }

  /** What a real file system guarantees of a tree: within one directory
      no two entries share a name, and no name below the root holds "/". */
  ghost predicate WellFormed(d: Entry)
    decreases d
  {
    match d
    case File(_, _) => true
    case Dir(_, children) =>
      DistinctNames(children)
      && (forall c :: c in children ==> '/' !in c.name && WellFormed(c))
  }

  predicate DistinctNames(entries: seq<Entry>) {
    forall i, j :: 0 <= i < j < |entries| ==> entries[i].name != entries[j].name
  }

  /** No two items name the same file: their directories or names differ. */
  predicate Unique(items: seq<Item>) {
    forall i, j :: 0 <= i < j < |items| ==>
      items[i].dirs != items[j].dirs || items[i].name != items[j].name
  }

  // ---------------------------------------------------------------------
  // Reading the output back

  /** The first position of `c` in `s`, or `|s|` when there is none. */
  function IndexOf(s: string, c: char): (k: nat)
    ensures k <= |s| && c !in s[..k]
    ensures k < |s| ==> s[k] == c
  {
    if s == [] then 0
    else if s[0] == c then 0
    else
      var k := 1 + IndexOf(s[1..], c);
      assert s[..k] == [s[0]] + s[1..][..k - 1];
      k
  }

  /** Recognises a banner at the start of `s`: the relative path it names and
      the text after it. */
  function ParseBanner(s: string): (r: Option<(string, string)>)
    ensures r.Some? ==> '\n' !in r.value.0 && s == Banner(r.value.0) + r.value.1
  {
    var head := "\n" + Rule() + "\n" + "File: ";
    var tail := "\n" + Rule() + "\n\n";
    if |s| < |head| || s[..|head|] != head then None
    else
      var rest := s[|head|..];
      var k := IndexOf(rest, '\n');
      if |rest| - k < |tail| || rest[k..k + |tail|] != tail then None
      else
        assert s == head + rest[..k] + tail + rest[k + |tail|..];
        Some((rest[..k], rest[k + |tail|..]))
  }

  /** Splits a relative path at every "/". */
  function SplitPath(p: string): (parts: seq<string>)
    ensures |parts| >= 1
    decreases |p|
  {
    var k := IndexOf(p, '/');
    if k == |p| then [p] else [p[..k]] + SplitPath(p[k + 1..])
  }

  // ---------------------------------------------------------------------
  // The operation

  /** `concatenate_code`: opening the output truncates it, so the text starts
      empty and grows by one block per kept file. */
  method ConcatenateCode(directory: Entry, extensions: Option<seq<string>>, excludeDirs: Option<seq<string>>)
    returns (output: string)
    ensures output == Concatenation(directory, ResolveConfig(extensions, excludeDirs))
  {
    var cfg := ResolveConfig(extensions, excludeDirs);
    output := "";
    if directory.Dir? {
      output := WriteTree(directory, [], cfg, output);
    }
  }

  /** The walk at directory `d` and everything below it: the output so far,
      extended with the blocks of the subtree. */
  method WriteTree(d: Entry, path: seq<string>, cfg: Config, output: string) returns (output': string)
    requires d.Dir?
    ensures output' == output + Render(Walk(d, path, cfg))
    decreases d
  {
    // `dirs[:] = [...]`: the subdirectories still to visit after pruning
    var dirs := Prune(d.children, cfg.excludeDirs);
    output' := WriteFiles(d.children, path, cfg, output);
    ghost var files := FileItems(d.children, path, cfg);
    for j := 0 to |dirs|
      invariant output' == output + Render(files) + Render(WalkAll(d, dirs[..j], path, cfg))
    {
      var sub := dirs[j];
      WalkAllStep(d, dirs, j, path, cfg);
      AppendAssoc(output + Render(files), Render(WalkAll(d, dirs[..j], path, cfg)),
                  Render(Walk(sub, path + [sub.name], cfg)));
      output' := WriteTree(sub, path + [sub.name], cfg, output');
    }
    assert dirs[..|dirs|] == dirs;
    assert Walk(d, path, cfg) == files + WalkAll(d, dirs, path, cfg);
    RenderAppend(files, WalkAll(d, dirs, path, cfg));
    AppendAssoc(output, Render(files), Render(WalkAll(d, dirs, path, cfg)));
  }

  /** `for file in files`: one block per kept file of a listing, in listing
      order. */
  method WriteFiles(entries: seq<Entry>, path: seq<string>, cfg: Config, output: string) returns (output': string)
    ensures output' == output + Render(FileItems(entries, path, cfg))
  {
    output' := output;
    for i := 0 to |entries|
      invariant output' == output + Render(FileItems(entries[..i], path, cfg))
    {
      var e := entries[i];
      FileItemsStep(entries, i, path, cfg);
      if e.File? && HasExtension(e.name, cfg.extensions) {
        var it := Item(path, e.name, e.read);
        RenderAppend(FileItems(entries[..i], path, cfg), [it]);
        RenderOne(it);
        AppendAssoc(output, Render(FileItems(entries[..i], path, cfg)), Block(it));
        output' := WriteBlock(path, e.name, e.read, output');
        assert FileItems(entries[..i + 1], path, cfg) == FileItems(entries[..i], path, cfg) + [it];
      } else {
        assert FileItems(entries[..i + 1], path, cfg) == FileItems(entries[..i], path, cfg) + [];
        assert FileItems(entries[..i], path, cfg) + [] == FileItems(entries[..i], path, cfg);
      }
    }
    assert entries[..|entries|] == entries;
  }

  /** The writes for one kept file: the banner naming its relative path, then
      its contents, or the error line when reading it failed. */
  method WriteBlock(dirs: seq<string>, name: string, read: ReadResult, output: string) returns (output': string)
    ensures output' == output + Block(Item(dirs, name, read))
  {
    // the three banner lines
    output' := output + Banner(RelPath(dirs, name));
    // the contents, or the error line when the read raised
    match read
    case Contents(text) =>
      output' := output' + text;
    case ReadFailed(message) =>
      output' := output' + ("Error reading file: " + message + "\n");
    AppendAssoc(output, Banner(RelPath(dirs, name)), Body(read));
  }

  // ---------------------------------------------------------------------
  // Properties

  lemma FileItemsStep(entries: seq<Entry>, i: nat, path: seq<string>, cfg: Config)
    requires i < |entries|
    ensures FileItems(entries[..i + 1], path, cfg) == FileItems(entries[..i], path, cfg)
      + (if entries[i].File? && HasExtension(entries[i].name, cfg.extensions)
         then [Item(path, entries[i].name, entries[i].read)] else [])
  {
    assert entries[..i + 1][..i] == entries[..i];
  }

  lemma WalkAllStep(d: Entry, subdirs: seq<Entry>, j: nat, path: seq<string>, cfg: Config)
    requires d.Dir? && j < |subdirs|
    requires forall e :: e in subdirs ==> e in d.children && e.Dir?
    ensures Render(WalkAll(d, subdirs[..j + 1], path, cfg))
         == Render(WalkAll(d, subdirs[..j], path, cfg)) + Render(Walk(subdirs[j], path + [subdirs[j].name], cfg))
  {
    assert subdirs[..j + 1][..j] == subdirs[..j];
    RenderAppend(WalkAll(d, subdirs[..j], path, cfg), Walk(subdirs[j], path + [subdirs[j].name], cfg));
  }

  lemma RenderOne(it: Item)
    ensures Render([it]) == Block(it)
  {
    assert [it][..0] == [];
    assert Blocks([it]) == [Block(it)];
    ConcatOne(Block(it));
  }

  lemma ConcatOne(part: string)
    ensures Concat([part]) == part
  {
    assert [part][..0] == [];
    assert [] + part == part;
  }

  lemma SplitAt(s: seq<Entry>, k: nat)
    requires k <= |s|
    ensures s == s[..k] + s[k..]
  {
  }

  lemma DropOne(s: seq<string>, k: nat)
    requires k < |s|
    ensures s[k..][1..] == s[k + 1..]
  {
  }

  lemma AppendAssoc(a: string, b: string, c: string)
    ensures a + b + c == a + (b + c)
  {
  }

  lemma {:induction false} ConcatAppend(a: seq<string>, b: seq<string>)
    ensures Concat(a + b) == Concat(a) + Concat(b)
    decreases |b|
  {
    if b != [] {
      var b' := b[..|b| - 1];
      assert (a + b)[..|a + b| - 1] == a + b';
      assert (a + b)[|a + b| - 1] == b[|b| - 1];
      ConcatAppend(a, b');
    } else {
      assert a + b == a;
    }
  }

  lemma {:induction false} BlocksAppend(a: seq<Item>, b: seq<Item>)
    ensures Blocks(a + b) == Blocks(a) + Blocks(b)
    decreases |b|
  {
    if b != [] {
      var b' := b[..|b| - 1];
      assert (a + b)[..|a + b| - 1] == a + b';
      assert (a + b)[|a + b| - 1] == b[|b| - 1];
      BlocksAppend(a, b');
    } else {
      assert a + b == a;
    }
  }

  /** Rendering a concatenation of items is the concatenation of the
      renderings: each block depends on its own file only. */
  lemma RenderAppend(a: seq<Item>, b: seq<Item>)
    ensures Render(a + b) == Render(a) + Render(b)
  {
    BlocksAppend(a, b);
    ConcatAppend(Blocks(a), Blocks(b));
  }

  // --- which files appear

  lemma {:induction false} FileItemsMembers(entries: seq<Entry>, path: seq<string>, cfg: Config, it: Item)
    ensures it in FileItems(entries, path, cfg) <==>
      it.dirs == path && File(it.name, it.read) in entries && HasExtension(it.name, cfg.extensions)
    decreases |entries|
  {
    if entries != [] {
      var init := entries[..|entries| - 1];
      FileItemsMembers(init, path, cfg, it);
      assert entries == init + [entries[|entries| - 1]];
    }
  }

  lemma {:induction false} WalkAllMembers(d: Entry, subdirs: seq<Entry>, path: seq<string>, cfg: Config, it: Item)
    requires d.Dir?
    requires forall e :: e in subdirs ==> e in d.children && e.Dir?
    ensures it in WalkAll(d, subdirs, path, cfg) <==>
      exists c :: c in subdirs && it in Walk(c, path + [c.name], cfg)
    decreases |subdirs|
  {
    if subdirs != [] {
      var init := subdirs[..|subdirs| - 1];
      var last := subdirs[|subdirs| - 1];
      WalkAllMembers(d, init, path, cfg, it);
      assert subdirs == init + [last];
      if it in WalkAll(d, subdirs, path, cfg) {
        if it in WalkAll(d, init, path, cfg) {
          var c :| c in init && it in Walk(c, path + [c.name], cfg);
          assert c in subdirs;
        } else {
          assert it in Walk(last, path + [last.name], cfg);
        }
      } else {
        forall c | c in subdirs
          ensures it !in Walk(c, path + [c.name], cfg)
        {
          if c !in init {
            assert c == last;
          }
        }
      }
    }
  }

  lemma {:induction false} WalkSound(d: Entry, path: seq<string>, cfg: Config, it: Item)
    requires d.Dir? && it in Walk(d, path, cfg)
    ensures |path| <= |it.dirs| && it.dirs[..|path|] == path
    ensures Kept(d, it.dirs[|path|..], File(it.name, it.read), cfg)
    decreases d
  {
    var subdirs := Prune(d.children, cfg.excludeDirs);
    if it in FileItems(d.children, path, cfg) {
      FileItemsMembers(d.children, path, cfg, it);
      assert it.dirs[|path|..] == [];
    } else {
      assert it in WalkAll(d, subdirs, path, cfg);
      WalkAllMembers(d, subdirs, path, cfg, it);
      var c :| c in subdirs && it in Walk(c, path + [c.name], cfg);
      WalkSound(c, path + [c.name], cfg, it);
      KeptThrough(d, c, path, cfg, it);
    }
  }

  /** One level of `WalkSound`: a file kept below a pruned subdirectory `c`
      is kept below its parent. */
  lemma KeptThrough(d: Entry, c: Entry, path: seq<string>, cfg: Config, it: Item)
    requires d.Dir? && c in d.children && c.Dir? && c.name !in cfg.excludeDirs
    requires |path| + 1 <= |it.dirs| && it.dirs[..|path| + 1] == path + [c.name]
    requires Kept(c, it.dirs[|path| + 1..], File(it.name, it.read), cfg)
    ensures |path| <= |it.dirs| && it.dirs[..|path|] == path
    ensures Kept(d, it.dirs[|path|..], File(it.name, it.read), cfg)
  {
    var p := path + [c.name];
    var rest := it.dirs[|path|..];
    assert it.dirs[..|path|] == it.dirs[..|p|][..|path|] == p[..|path|];
    assert rest[0] == it.dirs[..|p|][|path|] == p[|path|] == c.name;
    DropOne(it.dirs, |path|);
    assert rest == [c.name] + it.dirs[|p|..];
    ContainsThrough(d, c, it.dirs[|p|..], File(it.name, it.read));
  }

  lemma ContainsThrough(d: Entry, c: Entry, dirs: seq<string>, f: Entry)
    requires d.Dir? && c in d.children && c.Dir? && Contains(c, dirs, f)
    ensures Contains(d, [c.name] + dirs, f)
  {
    assert ([c.name] + dirs)[1..] == dirs;
  }

  lemma {:induction false} WalkComplete(d: Entry, path: seq<string>, cfg: Config, it: Item)
    requires d.Dir? && |path| <= |it.dirs| && it.dirs[..|path|] == path
    requires Kept(d, it.dirs[|path|..], File(it.name, it.read), cfg)
    ensures it in Walk(d, path, cfg)
    decreases d
  {
    var f := File(it.name, it.read);
    var rest := it.dirs[|path|..];
    if rest == [] {
      assert it.dirs == path;
      FileItemsMembers(d.children, path, cfg, it);
    } else {
      var subdirs := Prune(d.children, cfg.excludeDirs);
      var c :| c in d.children && c.Dir? && c.name == rest[0] && Contains(c, rest[1..], f);
      var p := path + [c.name];
      assert c in subdirs;
      assert it.dirs[..|p|] == p;
      DropOne(it.dirs, |path|);
      WalkComplete(c, p, cfg, it);
      WalkAllMembers(d, subdirs, path, cfg, it);
    }
  }

  /** A file of the subtree at `d` produces a block exactly when it is kept:
      its name has a configured extension and no directory between `d` and
      it has an excluded name. */
  lemma WalkMembers(d: Entry, path: seq<string>, cfg: Config, it: Item)
    requires d.Dir?
    ensures it in Walk(d, path, cfg) <==>
      |path| <= |it.dirs| && it.dirs[..|path|] == path
      && Kept(d, it.dirs[|path|..], File(it.name, it.read), cfg)
  {
    if it in Walk(d, path, cfg) {
      WalkSound(d, path, cfg, it);
    } else if |path| <= |it.dirs| && it.dirs[..|path|] == path
              && Kept(d, it.dirs[|path|..], File(it.name, it.read), cfg) {
      WalkComplete(d, path, cfg, it);
    }
  }

  /** The whole output: a file of the tree gets a block if and only if it is
      kept, labelled by the directories below the root and its own name. */
  lemma SelectionMembers(directory: Entry, cfg: Config, it: Item)
    ensures it in Selection(directory, cfg) <==> Kept(directory, it.dirs, File(it.name, it.read), cfg)
  {
    if directory.Dir? {
      WalkMembers(directory, [], cfg, it);
      assert it.dirs[..0] == [] && it.dirs[0..] == it.dirs;
    }
  }

  /** The output is empty exactly when no file of the tree is kept: an empty
      tree, a root that is not a directory, or no name with a listed suffix. */
  lemma EmptyOutputIffNothingKept(directory: Entry, cfg: Config)
    ensures Concatenation(directory, cfg) == [] <==>
      forall dirs, f :: !Kept(directory, dirs, f, cfg)
  {
    var items := Selection(directory, cfg);
    if items != [] {
      var it := items[0];
      SelectionMembers(directory, cfg, it);
      RenderNonEmpty(items);
    } else {
      forall dirs, f | Kept(directory, dirs, f, cfg)
        ensures false
      {
        SelectionMembers(directory, cfg, Item(dirs, f.name, f.read));
      }
    }
  }

  lemma RenderNonEmpty(items: seq<Item>)
    requires items != []
    ensures |Render(items)| > 0
  {
    var last := items[|items| - 1];
    assert Block(last)[0] == '\n';
  }

  /** With an empty extension list nothing matches, so nothing is written. */
  lemma NoExtensionsNoOutput(directory: Entry, excludeDirs: seq<string>)
    ensures Concatenation(directory, Config([], excludeDirs)) == []
  {
    EmptyOutputIffNothingKept(directory, Config([], excludeDirs));
  }

  // --- one block per file

  /** Each kept file of a well-formed tree gets exactly one block: no two
      items of the selection name the same file. */
  lemma SelectionUnique(directory: Entry, cfg: Config)
    requires WellFormed(directory)
    ensures Unique(Selection(directory, cfg))
  {
    if directory.Dir? {
      WalkUnique(directory, [], cfg);
    }
  }

  /** ... and no two blocks carry the same "File:" label. */
  lemma LabelsDistinct(directory: Entry, cfg: Config, i: nat, j: nat)
    requires WellFormed(directory)
    requires i < j < |Selection(directory, cfg)|
    ensures var items := Selection(directory, cfg);
      RelPath(items[i].dirs, items[i].name) != RelPath(items[j].dirs, items[j].name)
  {
    var items := Selection(directory, cfg);
    SelectionUnique(directory, cfg);
    SlashFreeItem(directory, cfg, items[i]);
    SlashFreeItem(directory, cfg, items[j]);
    RelPathInjective(items[i].dirs, items[i].name, items[j].dirs, items[j].name);
  }

  lemma SlashFreeItem(directory: Entry, cfg: Config, it: Item)
    requires WellFormed(directory) && it in Selection(directory, cfg)
    ensures (forall n :: n in it.dirs ==> '/' !in n) && '/' !in it.name
  {
    SelectionMembers(directory, cfg, it);
    ContainsSlashFree(directory, it.dirs, File(it.name, it.read));
  }

  lemma {:induction false} ContainsSlashFree(d: Entry, dirs: seq<string>, f: Entry)
    requires WellFormed(d) && Contains(d, dirs, f)
    ensures (forall n :: n in dirs ==> '/' !in n) && '/' !in f.name
    decreases dirs
  {
    if dirs != [] {
      var c :| c in d.children && c.Dir? && c.name == dirs[0] && Contains(c, dirs[1..], f);
      ContainsSlashFree(c, dirs[1..], f);
      assert dirs == [c.name] + dirs[1..];
    }
  }

  /** Labels of names without "/" determine the directories and the name. */
  lemma RelPathInjective(dirs: seq<string>, name: string, dirs': seq<string>, name': string)
    requires forall n :: n in dirs ==> '/' !in n
    requires forall n :: n in dirs' ==> '/' !in n
    requires '/' !in name && '/' !in name'
    ensures RelPath(dirs, name) == RelPath(dirs', name') ==> dirs == dirs' && name == name'
  {
    SplitRelPath(dirs, name);
    SplitRelPath(dirs', name');
    if RelPath(dirs, name) == RelPath(dirs', name') {
      var a, b := dirs + [name], dirs' + [name'];
      assert a == b;
      assert |dirs| == |dirs'|;
      assert dirs == a[..|dirs|] == b[..|dirs'|] == dirs';
      assert name == a[|dirs|] == b[|dirs'|] == name';
    }
  }

  lemma UniqueAppend(a: seq<Item>, b: seq<Item>)
    requires Unique(a) && Unique(b)
    requires forall x, y :: x in a && y in b ==> x.dirs != y.dirs || x.name != y.name
    ensures Unique(a + b)
  {
    var ab := a + b;
    forall i, j | 0 <= i < j < |ab|
      ensures ab[i].dirs != ab[j].dirs || ab[i].name != ab[j].name
    {
      if j < |a| {
        assert ab[i] == a[i] && ab[j] == a[j];
      } else if i < |a| {
        assert ab[i] in a && ab[j] == b[j - |a|];
      } else {
        assert ab[i] == b[i - |a|] && ab[j] == b[j - |a|];
      }
    }
  }

  lemma {:induction false} PruneDistinct(entries: seq<Entry>, excludeDirs: seq<string>)
    requires DistinctNames(entries)
    ensures DistinctNames(Prune(entries, excludeDirs))
    decreases |entries|
  {
    if entries != [] {
      var init := entries[..|entries| - 1];
      var last := entries[|entries| - 1];
      assert DistinctNames(init);
      PruneDistinct(init, excludeDirs);
      NotNamedIn(entries, Prune(init, excludeDirs));
    }
  }

  /** A subset of all but the last of a listing names none of them like the last. */
  lemma NotNamedIn(entries: seq<Entry>, sub: seq<Entry>)
    requires entries != [] && DistinctNames(entries)
    requires DistinctNames(sub)
    requires forall e :: e in sub ==> e in entries[..|entries| - 1]
    ensures DistinctNames(sub + [entries[|entries| - 1]])
  {
    var last := entries[|entries| - 1];
    forall e | e in sub
      ensures e.name != last.name
    {
      var k :| 0 <= k < |entries| - 1 && entries[..|entries| - 1][k] == e;
      assert entries[k] == e;
    }
    var s := sub + [last];
    forall i, j | 0 <= i < j < |s|
      ensures s[i].name != s[j].name
    {
      if j < |sub| {
        assert s[i] == sub[i] && s[j] == sub[j];
      } else {
        assert s[i] in sub && s[j] == last;
      }
    }
  }

  lemma {:induction false} FileItemsUnique(entries: seq<Entry>, path: seq<string>, cfg: Config)
    requires DistinctNames(entries)
    ensures Unique(FileItems(entries, path, cfg))
    decreases |entries|
  {
    if entries != [] {
      var init := entries[..|entries| - 1];
      var last := entries[|entries| - 1];
      assert DistinctNames(init);
      FileItemsUnique(init, path, cfg);
      var before := FileItems(init, path, cfg);
      var added := if last.File? && HasExtension(last.name, cfg.extensions)
                   then [Item(path, last.name, last.read)] else [];
      forall x, y | x in before && y in added
        ensures x.dirs != y.dirs || x.name != y.name
      {
        FileItemsMembers(init, path, cfg, x);
        var k :| 0 <= k < |init| && init[k] == File(x.name, x.read);
        assert entries[k].name != last.name;
      }
      UniqueAppend(before, added);
    }
  }

  lemma {:induction false} WalkUnique(d: Entry, path: seq<string>, cfg: Config)
    requires d.Dir? && WellFormed(d)
    ensures Unique(Walk(d, path, cfg))
    decreases d, 1
  {
    var files := FileItems(d.children, path, cfg);
    var subdirs := Prune(d.children, cfg.excludeDirs);
    var below := WalkAll(d, subdirs, path, cfg);
    FileItemsUnique(d.children, path, cfg);
    PruneDistinct(d.children, cfg.excludeDirs);
    WalkAllUnique(d, subdirs, path, cfg);
    forall x, y | x in files && y in below
      ensures x.dirs != y.dirs || x.name != y.name
    {
      FileItemsMembers(d.children, path, cfg, x);
      WalkAllMembers(d, subdirs, path, cfg, y);
      var c :| c in subdirs && y in Walk(c, path + [c.name], cfg);
      WalkSound(c, path + [c.name], cfg, y);
    }
    UniqueAppend(files, below);
  }

  lemma {:induction false} WalkAllUnique(d: Entry, subdirs: seq<Entry>, path: seq<string>, cfg: Config)
    requires d.Dir? && WellFormed(d)
    requires forall e :: e in subdirs ==> e in d.children && e.Dir?
    requires DistinctNames(subdirs)
    ensures Unique(WalkAll(d, subdirs, path, cfg))
    decreases d, 0, |subdirs|
  {
    if subdirs != [] {
      var init := subdirs[..|subdirs| - 1];
      var last := subdirs[|subdirs| - 1];
      assert DistinctNames(init);
      WalkAllUnique(d, init, path, cfg);
      WalkUnique(last, path + [last.name], cfg);
      var before := WalkAll(d, init, path, cfg);
      var after := Walk(last, path + [last.name], cfg);
      forall x, y | x in before && y in after
        ensures x.dirs != y.dirs || x.name != y.name
      {
        LastBranchApart(d, subdirs, path, cfg, x, y);
      }
      UniqueAppend(before, after);
    }
  }

  /** An item below an earlier subdirectory and one below the last lie in
      differently named branches. */
  lemma LastBranchApart(d: Entry, subdirs: seq<Entry>, path: seq<string>, cfg: Config, x: Item, y: Item)
    requires d.Dir? && subdirs != []
    requires forall e :: e in subdirs ==> e in d.children && e.Dir?
    requires DistinctNames(subdirs)
    requires x in WalkAll(d, subdirs[..|subdirs| - 1], path, cfg)
    requires y in Walk(subdirs[|subdirs| - 1], path + [subdirs[|subdirs| - 1].name], cfg)
    ensures x.dirs != y.dirs
  {
    var init := subdirs[..|subdirs| - 1];
    var last := subdirs[|subdirs| - 1];
    WalkAllMembers(d, init, path, cfg, x);
    var c :| c in init && x in Walk(c, path + [c.name], cfg);
    BranchOf(c, path, cfg, x);
    BranchOf(last, path, cfg, y);
    NamedApartFromLast(subdirs, c);
  }

  /** An item of the walk below subdirectory `c` has `c`'s name right after
      `path` in its directories. */
  lemma BranchOf(c: Entry, path: seq<string>, cfg: Config, it: Item)
    requires c.Dir? && it in Walk(c, path + [c.name], cfg)
    ensures |path| < |it.dirs| && it.dirs[|path|] == c.name
  {
    var p := path + [c.name];
    WalkSound(c, p, cfg, it);
    assert it.dirs[|path|] == it.dirs[..|p|][|path|] == p[|path|];
  }

  lemma NamedApartFromLast(subdirs: seq<Entry>, c: Entry)
    requires subdirs != [] && DistinctNames(subdirs)
    requires c in subdirs[..|subdirs| - 1]
    ensures c.name != subdirs[|subdirs| - 1].name
  {
    var k :| 0 <= k < |subdirs| - 1 && subdirs[..|subdirs| - 1][k] == c;
    assert subdirs[k] == c;
  }

  // --- pruning

  lemma {:induction false} FileItemsIgnoreDirs(xs: seq<Entry>, ys: seq<Entry>, path: seq<string>, cfg: Config)
    requires |xs| == |ys|
    requires forall k :: 0 <= k < |xs| ==> xs[k] == ys[k] || (xs[k].Dir? && ys[k].Dir?)
    ensures FileItems(xs, path, cfg) == FileItems(ys, path, cfg)
    decreases |xs|
  {
    if xs != [] {
      FileItemsIgnoreDirs(xs[..|xs| - 1], ys[..|ys| - 1], path, cfg);
    }
  }

  lemma {:induction false} PruneIgnoresExcluded(xs: seq<Entry>, ys: seq<Entry>, exclude: seq<string>)
    requires |xs| == |ys|
    requires forall k :: 0 <= k < |xs| ==>
      (xs[k] == ys[k] || (xs[k].Dir? && ys[k].Dir? && xs[k].name in exclude && ys[k].name in exclude))
    ensures Prune(xs, exclude) == Prune(ys, exclude)
    decreases |xs|
  {
    if xs != [] {
      PruneIgnoresExcluded(xs[..|xs| - 1], ys[..|ys| - 1], exclude);
    }
  }

  lemma {:induction false} WalkAllAnyParent(d: Entry, d': Entry, subdirs: seq<Entry>, path: seq<string>, cfg: Config)
    requires d.Dir? && d'.Dir?
    requires forall e :: e in subdirs ==> e in d.children && e in d'.children && e.Dir?
    ensures WalkAll(d, subdirs, path, cfg) == WalkAll(d', subdirs, path, cfg)
    decreases |subdirs|
  {
    if subdirs != [] {
      WalkAllAnyParent(d, d', subdirs[..|subdirs| - 1], path, cfg);
    }
  }

  /** Pruning is transitive: whatever an excluded subdirectory holds, at any
      depth and under any names, the walk of its parent is the same. */
  lemma ExcludedSubtreeIgnored(name: string, children: seq<Entry>, i: nat, inner: seq<Entry>,
                               path: seq<string>, cfg: Config)
    requires i < |children| && children[i].Dir? && children[i].name in cfg.excludeDirs
    ensures Walk(Dir(name, children[i := Dir(children[i].name, inner)]), path, cfg)
         == Walk(Dir(name, children), path, cfg)
  {
    var children' := children[i := Dir(children[i].name, inner)];
    FileItemsIgnoreDirs(children', children, path, cfg);
    PruneIgnoresExcluded(children', children, cfg.excludeDirs);
    var subdirs := Prune(children, cfg.excludeDirs);
    WalkAllAnyParent(Dir(name, children'), Dir(name, children), subdirs, path, cfg);
  }

  /** Only subdirectory names are tested: the root's own name, excluded or
      not, changes nothing. */
  lemma RootNameIgnored(name: string, name': string, children: seq<Entry>, cfg: Config)
    ensures Concatenation(Dir(name, children), cfg) == Concatenation(Dir(name', children), cfg)
  {
    var subdirs := Prune(children, cfg.excludeDirs);
    WalkAllAnyParent(Dir(name, children), Dir(name', children), subdirs, [], cfg);
  }

  // --- order

  /** Within one directory, every block of its own files comes before any
      block from its subdirectories. */
  lemma FilesBeforeSubdirectories(d: Entry, path: seq<string>, cfg: Config)
    requires d.Dir?
    ensures var w := Walk(d, path, cfg);
      forall i, j :: 0 <= i < j < |w| && w[i].dirs != path ==> w[j].dirs != path
  {
    var files := FileItems(d.children, path, cfg);
    var subdirs := Prune(d.children, cfg.excludeDirs);
    var below := WalkAll(d, subdirs, path, cfg);
    forall it | it in files
      ensures it.dirs == path
    {
      FileItemsMembers(d.children, path, cfg, it);
    }
    forall it | it in below
      ensures it.dirs != path
    {
      WalkAllMembers(d, subdirs, path, cfg, it);
      var c :| c in subdirs && it in Walk(c, path + [c.name], cfg);
      WalkSound(c, path + [c.name], cfg, it);
    }
    var w := Walk(d, path, cfg);
    forall i, j | 0 <= i < j < |w| && w[i].dirs != path
      ensures w[j].dirs != path
    {
      assert w[j] == below[j - |files|];
    }
  }

  lemma {:induction false} FileItemsAppend(xs: seq<Entry>, ys: seq<Entry>, path: seq<string>, cfg: Config)
    ensures FileItems(xs + ys, path, cfg) == FileItems(xs, path, cfg) + FileItems(ys, path, cfg)
    decreases |ys|
  {
    if ys == [] {
      assert xs + ys == xs;
    } else {
      var ys' := ys[..|ys| - 1];
      assert (xs + ys)[..|xs + ys| - 1] == xs + ys';
      assert (xs + ys)[|xs + ys| - 1] == ys[|ys| - 1];
      FileItemsAppend(xs, ys', path, cfg);
    }
  }

  /** Two kept files of one directory appear in the order the listing gives
      them. */
  lemma OwnFilesInListingOrder(d: Entry, path: seq<string>, cfg: Config, i: nat, j: nat)
    requires d.Dir? && i < j < |d.children|
    requires d.children[i].File? && HasExtension(d.children[i].name, cfg.extensions)
    requires d.children[j].File? && HasExtension(d.children[j].name, cfg.extensions)
    ensures exists p, q ::
      (0 <= p < q < |Walk(d, path, cfg)|
       && Walk(d, path, cfg)[p] == Item(path, d.children[i].name, d.children[i].read)
       && Walk(d, path, cfg)[q] == Item(path, d.children[j].name, d.children[j].read))
  {
    var cs := d.children;
    var w := Walk(d, path, cfg);
    FileItemsStep(cs, i, path, cfg);
    FileItemsStep(cs, j, path, cfg);
    assert cs[..j] == cs[..i + 1] + cs[i + 1..j] by {
      assert cs[..j][..i + 1] == cs[..i + 1] && cs[..j][i + 1..] == cs[i + 1..j];
      SplitAt(cs[..j], i + 1);
    }
    FileItemsAppend(cs[..i + 1], cs[i + 1..j], path, cfg);
    SplitAt(cs, j + 1);
    FileItemsAppend(cs[..j + 1], cs[j + 1..], path, cfg);
    var p := |FileItems(cs[..i], path, cfg)|;
    var q := |FileItems(cs[..j], path, cfg)|;
    var upToJ := FileItems(cs[..j + 1], path, cfg);
    assert |FileItems(cs[..i + 1], path, cfg)| == p + 1;
    assert p < q < |upToJ|;
    assert w == upToJ + FileItems(cs[j + 1..], path, cfg) + WalkAll(d, Prune(cs, cfg.excludeDirs), path, cfg);
    assert w[p] == upToJ[p] == FileItems(cs[..j], path, cfg)[p] == FileItems(cs[..i + 1], path, cfg)[p];
    assert w[q] == upToJ[q];
    var x := Item(path, cs[i].name, cs[i].read);
    var y := Item(path, cs[j].name, cs[j].read);
    assert 0 <= p < q < |w| && w[p] == x && w[q] == y;
  }

  // --- blocks

  lemma RenderSplit(items: seq<Item>, k: nat)
    requires k < |items|
    ensures Render(items) == Render(items[..k]) + Block(items[k]) + Render(items[k + 1..])
  {
    Decompose(items, k);
    RenderAppend(items[..k] + [items[k]], items[k + 1..]);
    RenderAppend(items[..k], [items[k]]);
    RenderOne(items[k]);
  }

  lemma Decompose(items: seq<Item>, k: nat)
    requires k < |items|
    ensures items == items[..k] + [items[k]] + items[k + 1..]
  {
  }

  /** A failed read changes its own block only: the banner stays, the
      contents become the error line, and every block before and after it
      is the same. */
  lemma ReadFailureIsLocal(items: seq<Item>, k: nat, message: string)
    requires k < |items|
    ensures var failed := items[k := items[k].(read := ReadFailed(message))];
      Render(failed) == Render(items[..k])
        + (Banner(RelPath(items[k].dirs, items[k].name)) + ("Error reading file: " + message + "\n"))
        + Render(items[k + 1..])
  {
    var failed := items[k := items[k].(read := ReadFailed(message))];
    RenderSplit(failed, k);
    assert failed[..k] == items[..k] && failed[k + 1..] == items[k + 1..];
  }

  /** A banner can be read back: the relative path it names and, right after
      it, the file's text with nothing inserted. */
  lemma BannerRoundTrip(rel: string, rest: string)
    requires '\n' !in rel
    ensures ParseBanner(Banner(rel) + rest) == Some((rel, rest))
  {
    var head := "\n" + Rule() + "\n" + "File: ";
    var tail := "\n" + Rule() + "\n\n";
    var s := Banner(rel) + rest;
    assert s == head + (rel + tail + rest);
    assert s[..|head|] == head;
    var after := s[|head|..];
    assert after == rel + (tail + rest);
    IndexOfAfter(rel, tail + rest, '\n');
  }

  /** A name that holds a newline makes the output ambiguous: the banner of
      `rel` followed by text that looks like the second half of another
      banner is also the banner of a longer path. */
  lemma BannerAmbiguousWithNewline(rel: string, rel2: string, rest: string)
    ensures var other := rel + "\n" + Rule() + "\n\nFile: " + rel2;
      other != rel && '\n' in other
      && Banner(rel) + ("File: " + rel2 + "\n" + Rule() + "\n\n" + rest) == Banner(other) + rest
  {
    var r := Rule();
    var other := rel + "\n" + r + "\n\nFile: " + rel2;
    assert other[|rel|] == '\n';
    var head := "\n" + r + "\n" + "File: ";
    var tail := "\n" + r + "\n\n";
    var x := "File: " + rel2;
    assert Banner(rel) == head + rel + tail;
    assert Banner(other) == head + other + tail;
    assert other == rel + tail + x;
    assert "File: " + rel2 + "\n" + r + "\n\n" + rest == x + tail + rest;
  }

  lemma {:induction false} IndexOfAfter(a: string, b: string, c: char)
    requires c !in a && b != [] && b[0] == c
    ensures IndexOf(a + b, c) == |a|
    decreases |a|
  {
    if a != [] {
      assert (a + b)[0] == a[0];
      assert (a + b)[1..] == a[1..] + b;
      IndexOfAfter(a[1..], b, c);
    } else {
      assert a + b == b;
    }
  }

  /** The relative path identifies the file: splitting it at "/" gives back
      the directory names and the file name (a name never holds "/"). */
  lemma {:induction false} SplitRelPath(dirs: seq<string>, name: string)
    requires forall n :: n in dirs ==> '/' !in n
    requires '/' !in name
    ensures SplitPath(RelPath(dirs, name)) == dirs + [name]
    decreases |dirs|
  {
    if dirs == [] {
    } else {
      SplitPathAfterName(dirs[0], RelPath(dirs[1..], name));
      SplitRelPath(dirs[1..], name);
      assert dirs == [dirs[0]] + dirs[1..];
    }
  }

  lemma SplitPathAfterName(first: string, rest: string)
    requires '/' !in first
    ensures SplitPath(first + "/" + rest) == [first] + SplitPath(rest)
  {
    var p := first + "/" + rest;
    assert p == first + ("/" + rest);
    IndexOfAfter(first, "/" + rest, '/');
    assert p[..|first|] == first;
    assert p[|first| + 1..] == rest;
  }
}
