/**
 * FromExtraPathsLoader._filter_modules: which top-level module names a
 * site-packages directory contributes. The directory listing
 * (`os.listdir` with `os.path.isdir` for each entry) is an input.
 */
module Listing {
  import opened PyText

  /** One entry of `os.listdir(base_path)`, with `os.path.isdir(join(base_path, name))`. */
  datatype Entry = Entry(name: string, isDir: bool)

  /** Hidden entries, `__pycache__` and `.dist-info` metadata are never considered. */
  predicate Skipped(f: string) {
    StartsWith(f, ".") || f == "__pycache__" || EndsWith(f, ".dist-info")
  }

  /** The names the generator yields for one entry. */
  function EntryModules(e: Entry): seq<string> {
    var f := e.name;
    if Skipped(f) then []
    else if e.isDir then [f]
    else EggModule(f) + SourceModule(f)
  }

  /** An egg file contributes the text before its first dash. */
  function EggModule(f: string): seq<string> {
    if EndsWith(f, ".egg") then [Split(f, '-')[0]] else []
  }

  /**
   * A file whose last extension is `.py` or `.so` contributes its name
   * without that extension.
   */
  function SourceModule(f: string): seq<string> {
    var (root, ext) := SplitExt(f);
    if ext == ".py" || ext == ".so" then [root] else []
  }

  /** The generator, drained: the names of each entry in listing order. */
  function FilterModules(listing: seq<Entry>): seq<string>
    decreases |listing|
  {
    if |listing| == 0 then []
    else EntryModules(listing[0]) + FilterModules(listing[1..])
  }

  /** A file ending in `.egg` never also has a `.py` or `.so` extension. */
  lemma EggIsNotSource(f: string)
    requires EndsWith(f, ".egg")
    ensures SplitExt(f).1 != ".py" && SplitExt(f).1 != ".so"
  {
    SplitExtParts(f);
    var ext := SplitExt(f).1;
    if ext != [] {
      assert ext[|ext| - 1] == f[|f| - 1] == f[|f| - 4..][3] == 'g';
    }
  }

  /** Every entry yields at most one name. */
  lemma EntryModulesAtMostOne(e: Entry)
    ensures |EntryModules(e)| <= 1
  {
    if !Skipped(e.name) && !e.isDir && EndsWith(e.name, ".egg") {
      EggIsNotSource(e.name);
    }
  }

  /**
   * The classification of a file (not a directory) that is not skipped:
   * an `.egg` yields the text before its first '-', a file whose last
   * extension is `.py` or `.so` yields the text before that last dot (an
   * extension module keeps its ABI tag), anything else yields nothing.
   */
  lemma FileModules(f: string)
    requires !Skipped(f) && '/' !in f && |f| > 0
    ensures EndsWith(f, ".egg") ==> EntryModules(Entry(f, false)) == [Split(f, '-')[0]]
    ensures EndsWith(f, ".py") || EndsWith(f, ".so") ==>
      EntryModules(Entry(f, false)) == [f[..|f| - 3]]
    ensures !EndsWith(f, ".egg") && !EndsWith(f, ".py") && !EndsWith(f, ".so") ==>
      EntryModules(Entry(f, false)) == []
  {
    assert EntryModules(Entry(f, false)) == EggModule(f) + SourceModule(f);
    assert f[0] != '.' by { assert !StartsWith(f, "."); }
    ExtensionOfBasename(f, ".py");
    ExtensionOfBasename(f, ".so");
    if EndsWith(f, ".egg") {
      EggIsNotSource(f);
      assert SourceModule(f) == [];
    }
  }

  /** A directory that is not skipped yields its own name, whatever it ends with. */
  lemma DirectoryModules(f: string)
    requires !Skipped(f)
    ensures EntryModules(Entry(f, true)) == [f]
  {
  }

  /** A skipped entry yields nothing, file or directory. */
  lemma SkippedYieldsNothing(e: Entry)
    requires Skipped(e.name)
    ensures EntryModules(e) == []
  {
  }

  /** The listing is processed entry by entry, in order. */
  lemma {:induction false} FilterModulesAppend(a: seq<Entry>, b: seq<Entry>)
    ensures FilterModules(a + b) == FilterModules(a) + FilterModules(b)
    decreases |a|
  {
    if |a| > 0 {
      assert (a + b)[1..] == a[1..] + b;
      FilterModulesAppend(a[1..], b);
    } else {
      assert a + b == b;
    }
  }

  /** At most one name per entry overall. */
  lemma {:induction false} FilterModulesLength(listing: seq<Entry>)
    ensures |FilterModules(listing)| <= |listing|
    decreases |listing|
  {
    if |listing| > 0 {
      EntryModulesAtMostOne(listing[0]);
      FilterModulesLength(listing[1..]);
    }
  }

  /** A name is yielded exactly when some entry yields it. */
  lemma {:induction false} FilterModulesMembers(listing: seq<Entry>, x: string)
    ensures x in FilterModules(listing) <==>
      exists i :: 0 <= i < |listing| && x in EntryModules(listing[i])
    decreases |listing|
  {
    if |listing| > 0 {
      FilterModulesMembers(listing[1..], x);
      if exists i :: 0 <= i < |listing| && x in EntryModules(listing[i]) {
        var i :| 0 <= i < |listing| && x in EntryModules(listing[i]);
        if i > 0 {
          assert listing[1..][i - 1] == listing[i];
        }
      }
      if x in FilterModules(listing[1..]) {
        var i :| 0 <= i < |listing[1..]| && x in EntryModules(listing[1..][i]);
        assert listing[i + 1] == listing[1..][i];
      }
    }
  }

  /** Dropping skipped entries from the listing changes nothing. */
  lemma {:induction false} SkippedEntriesIrrelevant(listing: seq<Entry>, e: Entry, rest: seq<Entry>)
    requires Skipped(e.name)
    ensures FilterModules(listing + [e] + rest) == FilterModules(listing + rest)
    decreases |listing|
  {
    if |listing| == 0 {
      assert listing + [e] + rest == [e] + rest;
      assert ([e] + rest)[1..] == rest;
      assert listing + rest == rest;
    } else {
      var l := listing + [e] + rest;
      assert l[0] == listing[0] && l[1..] == listing[1..] + [e] + rest;
      var m := listing + rest;
      assert m[0] == listing[0] && m[1..] == listing[1..] + rest;
      SkippedEntriesIrrelevant(listing[1..], e, rest);
    }
  }

  /**
   * A `.py` or `.so` file yields its stem, whatever dots the stem holds (an
   * extension module keeps its ABI tag: the split is at the last dot).
   */
  lemma SourceOrExtensionStem(stem: string, ext: string)
    requires ext == ".py" || ext == ".so"
    requires |stem| > 0 && stem[0] != '.' && '/' !in stem
    ensures EntryModules(Entry(stem + ext, false)) == [stem]
  {
    var f := stem + ext;
    assert f[..|f| - 3] == stem;
    NotStartsWith(f, ".", 0);
    NotEndsWith(f, ".dist-info", 8);
    NotEndsWith(f, ".egg", 3);
    assert EndsWith(f, ext) by { assert f[|f| - 3..] == ext; }
    FileModules(f);
  }

  /** An `.egg` file yields the text before its first '-'. */
  lemma EggName(name: string, rest: string)
    requires |name| > 0 && name[0] != '.' && '-' !in name && '/' !in name && '/' !in rest
    ensures EntryModules(Entry(name + "-" + rest + ".egg", false)) == [name]
  {
    var f := name + "-" + rest + ".egg";
    assert f[|f| - 4..] == ".egg";
    NotStartsWith(f, ".", 0);
    NotEndsWith(f, ".dist-info", 9);
    assert f == name + ['-'] + (rest + ".egg");
    SplitAtFirst(name, '-', rest + ".egg");
    FileModules(f);
  }

  /** The ABI tag of an extension module survives. */
  lemma AbiTagKept()
    ensures FilterModules([Entry("foo.cpython-37m-x86_64-linux-gnu.so", false)])
         == ["foo.cpython-37m-x86_64-linux-gnu"]
  {
    SourceOrExtensionStem("foo.cpython-37m-x86_64-linux-gnu", ".so");
    assert "foo.cpython-37m-x86_64-linux-gnu" + ".so" == "foo.cpython-37m-x86_64-linux-gnu.so";
  }
}
