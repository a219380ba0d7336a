/**
 * The docs_builder.rb driver: the required-option check, the list of
 * resource short names, one DummyResource per short name, the doc files it
 * renders (or skips) and the README index. Option parsing, logging and ERB
 * rendering are outside the model; the file system is given as data.
 */
module DocsBuilder {
  import opened Wrappers
  import opened RubyValues
  import opened StringOrder
  import opened ChefDocBuilder

  // ---------------------------------------------------------------------
  // nil_or_empty_any? and the required-option check

  /** v.nil? or v responds to empty? (String, Symbol, Array, Hash) and is empty. */
  predicate NilOrEmpty(v: Value)
  {
    match v
    case Nil => true
    case Str(s) => s == ""
    case Sym(n) => n == ""
    case Arr(items) => items == []
    case Hash(entries) => entries == []
    case _ => false
  }

  /** nil_or_empty_any?(*values) */
  function NilOrEmptyAny(values: seq<Value>): (r: bool)
    ensures r <==> exists i :: 0 <= i < |values| && NilOrEmpty(values[i])
  {
    if values == [] then false
    else NilOrEmpty(values[0]) || NilOrEmptyAny(values[1..])
  }

  /** The options the script cannot run without. */
  const RequiredOptions: seq<string> := ["doc-directory"]

  /** The required options that are absent from the option hash or nil or empty there. */
  function MissingOptions(options: map<string, Value>, required: seq<string>): (missing: seq<string>)
    ensures |missing| <= |required|
    ensures forall o :: o in missing <==> o in required && (o !in options || NilOrEmpty(options[o]))
  {
    if required == [] then []
    else
      var o := required[0];
      var value := if o in options then options[o] else Nil;
      (if NilOrEmptyAny([value]) then [o] else []) + MissingOptions(options, required[1..])
  }

  /** Array#join */
  function JoinWith(parts: seq<string>, sep: string): string
  {
    if parts == [] then ""
    else if |parts| == 1 then parts[0]
    else parts[0] + sep + JoinWith(parts[1..], sep)
  }

  datatype DriverError =
    | MissingArgument(names: string)
    | ResourceDirectoryUnavailable(dir: string)
    | MissingResourceFile(path: string)

  /** The check fails exactly when doc-directory is missing, nil or empty, and then names it. */
  function CheckRequiredOptions(options: map<string, Value>): (r: Result<(), DriverError>)
    ensures r.Failure? <==> "doc-directory" !in options || NilOrEmpty(options["doc-directory"])
    ensures r.Failure? ==> r.error == MissingArgument("doc-directory")
  {
    var missing := MissingOptions(options, RequiredOptions);
    if missing == [] then Success(())
    else
      assert missing == ["doc-directory"] by {
        assert missing[0] in missing;
      }
      Failure(MissingArgument(JoinWith(missing, ", ")))
  }

  // ---------------------------------------------------------------------
  // File names

  /** The position of the last c in s, if any. */
  function LastIndexOf(s: string, c: char): (r: Option<nat>)
    ensures r.None? <==> c !in s
    ensures r.Some? ==> r.value < |s| && s[r.value] == c && c !in s[r.value + 1..]
  {
    if s == [] then None
    else if s[|s| - 1] == c then Some(|s| - 1)
    else
      var r := LastIndexOf(s[..|s| - 1], c);
      assert s == s[..|s| - 1] + [s[|s| - 1]];
      if r.Some? then
        assert s[r.value + 1..] == s[..|s| - 1][r.value + 1..] + [s[|s| - 1]];
        r
      else r
  }

  predicate AllDots(s: string)
  {
    forall i :: 0 <= i < |s| ==> s[i] == '.'
  }

  /**
   * File.extname of a base name: from the last '.' to the end, unless
   * nothing but dots comes before that '.' (".rb" and "..rb" have none).
   */
  function ExtName(f: string): (e: string)
    ensures |e| <= |f|
    ensures e == [] || (e[0] == '.' && '.' !in e[1..] && e == f[|f| - |e|..] && !AllDots(f[..|f| - |e|]))
    ensures '.' !in f ==> e == []
  {
    match LastIndexOf(f, '.')
    case None => ""
    case Some(i) =>
      if AllDots(f[..i]) then ""
      else
        assert f[i..][1..] == f[i + 1..];
        f[i..]
  }

  /** Given the last '.' of a name, its extension is empty iff only dots come before that '.'. */
  lemma ExtNameAtLastDot(f: string, i: nat)
    requires i < |f| && f[i] == '.' && '.' !in f[i + 1..]
    ensures ExtName(f) == if AllDots(f[..i]) then "" else f[i..]
  {
    assert f[i] in f;
  }

  /** The last component of a path, after its last '/'. */
  function LastComponent(path: string): (b: string)
    ensures |b| <= |path|
    ensures '/' !in b && b == path[|path| - |b|..]
    ensures |b| == |path| || path[|path| - |b| - 1] == '/'
  {
    match LastIndexOf(path, '/')
    case None => path
    case Some(i) => path[i + 1..]
  }

  /** File.basename(path, '.*') */
  function BaseNameNoExt(path: string): string
  {
    var b := LastComponent(path);
    b[..|b| - |ExtName(b)|]
  }

  /** File.extname(f).eql?('.rb') */
  predicate IsResourceFile(f: string)
  {
    ExtName(f) == ".rb"
  }

  /** A resource file's short name is its name without ".rb", and back. */
  lemma ResourceFileShortName(f: string)
    requires '/' !in f && IsResourceFile(f)
    ensures |f| >= 3 && BaseNameNoExt(f) == f[..|f| - 3] && BaseNameNoExt(f) + ".rb" == f
  {
    assert LastComponent(f) == f;
  }

  lemma ShortNameResourceFile(s: string)
    requires '/' !in s + ".rb" && IsResourceFile(s + ".rb")
    ensures BaseNameNoExt(s + ".rb") == s
  {
    ResourceFileShortName(s + ".rb");
    assert (s + ".rb")[..|s|] == s;
  }

  // ---------------------------------------------------------------------
  // The short names

  /** Dir.children(dir).filter { .rb }.map { basename without extension }, before the sort. */
  function RubyFileStems(children: seq<string>): (stems: seq<string>)
    ensures |stems| <= |children|
  {
    if children == [] then []
    else
      (if IsResourceFile(children[0]) then [BaseNameNoExt(children[0])] else [])
        + RubyFileStems(children[1..])
  }

  /** The directory-mode short names: the stems of the .rb entries, sorted. */
  function ShortNames(children: seq<string>): seq<string>
  {
    Sort(RubyFileStems(children))
  }

  lemma {:induction false} RubyFileStemsMembers(children: seq<string>)
    requires forall i :: 0 <= i < |children| ==> '/' !in children[i]
    ensures forall s :: s in RubyFileStems(children) <==> s + ".rb" in children && IsResourceFile(s + ".rb")
  {
    if children != [] {
      RubyFileStemsMembers(children[1..]);
      var c := children[0];
      forall s ensures s in RubyFileStems(children) <==> s + ".rb" in children && IsResourceFile(s + ".rb") {
        if IsResourceFile(c) {
          ResourceFileShortName(c);
        }
        if s + ".rb" == c && IsResourceFile(c) {
          ShortNameResourceFile(s);
        }
        if s + ".rb" in children[1..] {
          assert s + ".rb" in children;
        }
        if s + ".rb" in children && s + ".rb" != c {
          assert s + ".rb" in children[1..];
        }
      }
    }
  }

  /**
   * Directory mode: the short names are sorted, no more numerous than the
   * directory entries, and are exactly the names s for which s.rb is an
   * entry with extension .rb.
   */
  lemma ShortNamesSpec(children: seq<string>)
    requires forall i :: 0 <= i < |children| ==> '/' !in children[i]
    ensures Sorted(ShortNames(children))
    ensures |ShortNames(children)| <= |children|
    ensures forall s :: s in ShortNames(children) <==> s + ".rb" in children && IsResourceFile(s + ".rb")
  {
    RubyFileStemsMembers(children);
    var stems := RubyFileStems(children);
    forall s ensures s in ShortNames(children) <==> s in stems {
      assert s in multiset(ShortNames(children)) <==> s in multiset(stems);
    }
  }

  /** Single-file mode: the one short name is the file's base name without its extension. */
  lemma SingleFileShortName(path: string)
    ensures '/' !in BaseNameNoExt(path)
    ensures LastComponent(path) == BaseNameNoExt(path) + ExtName(LastComponent(path))
  {
    var b := LastComponent(path);
    StemAndExtension(b);
    PrefixKeepsAbsence(b, |b| - |ExtName(b)|, '/');
  }

  /** A name is its stem followed by its extension. */
  lemma StemAndExtension(b: string)
    ensures b == b[..|b| - |ExtName(b)|] + ExtName(b)
  {
    var e := ExtName(b);
    assert e == b[|b| - |e|..];
  }

  lemma PrefixKeepsAbsence(s: string, n: nat, c: char)
    requires n <= |s| && c !in s
    ensures c !in s[..n]
  {
    forall i | 0 <= i < n ensures s[..n][i] != c {
      assert s[..n][i] == s[i];
    }
  }

  datatype Config = Config(
    docDirectory: string,
    cookbookPrefix: string,
    resourceDirectory: string,
    resourceFile: Option<string>,
    overwrite: bool)

  /**
   * The short names: the given file's in single-file mode, otherwise those of
   * the resource directory's entries (None: the directory does not exist).
   */
  function ResourceFiles(cfg: Config, listing: Option<seq<string>>): Result<seq<string>, DriverError>
  {
    if cfg.resourceFile.Some? then Success([BaseNameNoExt(cfg.resourceFile.value)])
    else if listing.None? then Failure(ResourceDirectoryUnavailable(cfg.resourceDirectory))
    else Success(ShortNames(listing.value))
  }

  // ---------------------------------------------------------------------
  // Record, doc and index names

  /** "#{cookbook-prefix}_#{short}" */
  function RecordName(prefix: string, short: string): string
  {
    prefix + "_" + short
  }

  /** The record name gives back its prefix and short name; so distinct short names give distinct record names. */
  lemma RecordNameParts(prefix: string, short: string)
    ensures |RecordName(prefix, short)| == |prefix| + 1 + |short|
    ensures RecordName(prefix, short)[..|prefix|] == prefix
    ensures RecordName(prefix, short)[|prefix| + 1..] == short
  {
  }

  /** Record names sort as their short names do. */
  lemma RecordNameOrder(prefix: string, a: string, b: string)
    ensures LexLessEq(RecordName(prefix, a), RecordName(prefix, b)) <==> LexLessEq(a, b)
  {
    assert RecordName(prefix, a) == (prefix + "_") + a;
    assert RecordName(prefix, b) == (prefix + "_") + b;
    LexCommonPrefix(prefix + "_", a, b);
  }

  /** The file a record is loaded from: "#{resource-directory}/#{short}.rb", in single-file mode too. */
  function LoadPath(resourceDirectory: string, short: string): string
  {
    resourceDirectory + "/" + short + ".rb"
  }

  /** "#{resource.name}.md" */
  function DocFileName(name: string): string
  {
    name + ".md"
  }

  /** String#delete_suffix */
  function DeleteSuffix(s: string, suffix: string): (r: string)
    ensures |s| >= |suffix| && s[|s| - |suffix|..] == suffix ==> r + suffix == s
    ensures !(|s| >= |suffix| && s[|s| - |suffix|..] == suffix) ==> r == s
  {
    if |s| >= |suffix| && s[|s| - |suffix|..] == suffix then s[..|s| - |suffix|] else s
  }

  /** resource_name, the doc file name without ".md", is the record's name. */
  lemma ResourceNameOfDocFile(name: string)
    ensures DeleteSuffix(DocFileName(name), ".md") == name
  {
    var f := DocFileName(name);
    assert f[|f| - 3..] == ".md";
    assert f[..|f| - 3] == name;
  }

  /** Ruby's String#end_with? for one character. */
  predicate EndsWithSlash(s: string)
  {
    s != [] && s[|s| - 1] == '/'
  }

  predicate StartsWithSlash(s: string)
  {
    s != [] && s[0] == '/'
  }

  /** The path with its trailing '/' characters removed. */
  function ChompSlashes(s: string): (r: string)
    ensures r <= s && !EndsWithSlash(r)
    ensures forall i :: |r| <= i < |s| ==> s[i] == '/'
  {
    if EndsWithSlash(s) then ChompSlashes(s[..|s| - 1]) else s
  }

  /**
   * File.join(dir, file): one '/' is put between the two unless dir already
   * ends with one; a file that starts with '/' replaces dir's trailing ones.
   */
  function JoinPath(dir: string, file: string): string
  {
    if StartsWithSlash(file) then ChompSlashes(dir) + file
    else if EndsWithSlash(dir) then dir + file
    else dir + "/" + file
  }

  /** Two files that agree on starting with '/' land on different paths under one directory. */
  lemma JoinPathInjective(dir: string, a: string, b: string)
    requires StartsWithSlash(a) == StartsWithSlash(b)
    requires JoinPath(dir, a) == JoinPath(dir, b)
    ensures a == b
  {
    var head := if StartsWithSlash(a) then ChompSlashes(dir) else if EndsWithSlash(dir) then dir else dir + "/";
    assert JoinPath(dir, a) == head + a && JoinPath(dir, b) == head + b;
    assert a == (head + a)[|head|..] && b == (head + b)[|head|..];
  }

  /** File.join(doc-directory, "#{name}.md") */
  function DocPath(docDirectory: string, name: string): string
  {
    JoinPath(docDirectory, DocFileName(name))
  }

  /** Distinct short names under one prefix give distinct doc paths. */
  lemma DocPathsDistinct(docDirectory: string, prefix: string, a: string, b: string)
    requires a != b
    ensures DocPath(docDirectory, RecordName(prefix, a)) != DocPath(docDirectory, RecordName(prefix, b))
  {
    var fa, fb := DocFileName(RecordName(prefix, a)), DocFileName(RecordName(prefix, b));
    assert StartsWithSlash(fa) == StartsWithSlash(fb) by {
      if prefix != [] {
        assert fa[0] == prefix[0] && fb[0] == prefix[0];
      } else {
        assert fa[0] == '_' && fb[0] == '_';
      }
    }
    if DocPath(docDirectory, RecordName(prefix, a)) == DocPath(docDirectory, RecordName(prefix, b)) {
      JoinPathInjective(docDirectory, fa, fb);
      assert fa[..|fa| - 3] == RecordName(prefix, a);
      RecordNameParts(prefix, a);
      RecordNameParts(prefix, b);
      assert false;
    }
  }

  // ---------------------------------------------------------------------
  // Rendering the doc files

  /** The variables the doc template is rendered with, and the file it is written to. */
  datatype DocVars = DocVars(
    path: string,
    resourceName: string,
    actions: seq<Value>,
    libraries: seq<string>,
    properties: seq<Entries>,
    uses: seq<Value>)

  function DocVarsOf(docDirectory: string, rec: Record): DocVars
  {
    var filename := DocFileName(rec.name);
    DocVars(JoinPath(docDirectory, filename), DeleteSuffix(filename, ".md"), rec.actions, rec.libraries, rec.properties, rec.uses)
  }

  /** A doc file is skipped when it exists and overwrite is off. */
  predicate SkipDoc(path: string, existing: set<string>, overwrite: bool)
  {
    path in existing && !overwrite
  }

  /**
   * The doc files the render loop writes, in record order. A written file
   * exists from then on, so a later record with the same doc path is skipped
   * unless overwrite is set.
   */
  function PlannedDocs(docDirectory: string, records: seq<Record>, existing: set<string>, overwrite: bool): (docs: seq<DocVars>)
    ensures |docs| <= |records|
  {
    if records == [] then []
    else
      var doc := DocVarsOf(docDirectory, records[0]);
      if SkipDoc(doc.path, existing, overwrite) then PlannedDocs(docDirectory, records[1..], existing, overwrite)
      else [doc] + PlannedDocs(docDirectory, records[1..], existing + {doc.path}, overwrite)
  }

  /** The paths of the docs written. */
  function WrittenPaths(docs: seq<DocVars>): set<string>
  {
    if docs == [] then {} else WrittenPaths(docs[..|docs| - 1]) + {docs[|docs| - 1].path}
  }

  /** The records whose doc file is not skipped, judged against the files that existed before the loop. */
  function Unskipped(docDirectory: string, records: seq<Record>, existing: set<string>, overwrite: bool): seq<DocVars>
  {
    if records == [] then []
    else
      var doc := DocVarsOf(docDirectory, records[0]);
      (if SkipDoc(doc.path, existing, overwrite) then [] else [doc])
        + Unskipped(docDirectory, records[1..], existing, overwrite)
  }

  /** Every doc written is the doc of a record whose file was not skipped, and is named after that record. */
  lemma {:induction false} PlannedDocsOrigin(docDirectory: string, records: seq<Record>, existing: set<string>, overwrite: bool, i: nat)
    returns (j: nat)
    requires i < |PlannedDocs(docDirectory, records, existing, overwrite)|
    ensures j < |records|
    ensures PlannedDocs(docDirectory, records, existing, overwrite)[i] == DocVarsOf(docDirectory, records[j])
    ensures PlannedDocs(docDirectory, records, existing, overwrite)[i].resourceName == records[j].name
    ensures !SkipDoc(DocPath(docDirectory, records[j].name), existing, overwrite)
  {
    var doc := DocVarsOf(docDirectory, records[0]);
    if SkipDoc(doc.path, existing, overwrite) {
      var k := PlannedDocsOrigin(docDirectory, records[1..], existing, overwrite, i);
      j := k + 1;
    } else if i == 0 {
      j := 0;
    } else {
      var rest := PlannedDocs(docDirectory, records[1..], existing + {doc.path}, overwrite);
      assert PlannedDocs(docDirectory, records, existing, overwrite)[i] == rest[i - 1];
      var k := PlannedDocsOrigin(docDirectory, records[1..], existing + {doc.path}, overwrite, i - 1);
      j := k + 1;
    }
    ResourceNameOfDocFile(records[j].name);
  }

  predicate DistinctDocPaths(docDirectory: string, records: seq<Record>)
  {
    forall i, j :: 0 <= i < j < |records| ==>
      DocPath(docDirectory, records[i].name) != DocPath(docDirectory, records[j].name)
  }

  lemma {:induction false} UnskippedIgnores(docDirectory: string, records: seq<Record>, existing: set<string>, overwrite: bool, p: string)
    requires forall i :: 0 <= i < |records| ==> DocPath(docDirectory, records[i].name) != p
    ensures Unskipped(docDirectory, records, existing + {p}, overwrite) == Unskipped(docDirectory, records, existing, overwrite)
  {
    if records != [] {
      UnskippedIgnores(docDirectory, records[1..], existing, overwrite, p);
    }
  }

  /**
   * With distinct doc paths, a record's doc is written iff its file did not
   * exist before or overwrite is set, so doc_count counts the records not
   * skipped.
   */
  lemma {:induction false} PlannedDocsUnskipped(docDirectory: string, records: seq<Record>, existing: set<string>, overwrite: bool)
    requires DistinctDocPaths(docDirectory, records)
    ensures PlannedDocs(docDirectory, records, existing, overwrite) == Unskipped(docDirectory, records, existing, overwrite)
  {
    if records != [] {
      var doc := DocVarsOf(docDirectory, records[0]);
      assert DistinctDocPaths(docDirectory, records[1..]) by {
        forall i, j | 0 <= i < j < |records[1..]|
          ensures DocPath(docDirectory, records[1..][i].name) != DocPath(docDirectory, records[1..][j].name)
        {
          assert records[1..][i] == records[i + 1] && records[1..][j] == records[j + 1];
        }
      }
      PlannedDocsUnskipped(docDirectory, records[1..], existing, overwrite);
      if !SkipDoc(doc.path, existing, overwrite) {
        PlannedDocsUnskipped(docDirectory, records[1..], existing + {doc.path}, overwrite);
        forall i | 0 <= i < |records[1..]| ensures DocPath(docDirectory, records[1..][i].name) != doc.path {
          assert records[1..][i] == records[i + 1];
        }
        UnskippedIgnores(docDirectory, records[1..], existing, overwrite, doc.path);
      }
    }
  }

  /** With overwrite set every record gets its doc, in order, named after the record. */
  lemma {:induction false} OverwriteRendersAll(docDirectory: string, records: seq<Record>, existing: set<string>)
    ensures |PlannedDocs(docDirectory, records, existing, true)| == |records|
    ensures forall i :: 0 <= i < |records| ==>
      PlannedDocs(docDirectory, records, existing, true)[i] == DocVarsOf(docDirectory, records[i]) &&
      PlannedDocs(docDirectory, records, existing, true)[i].resourceName == records[i].name
  {
    if records != [] {
      var doc := DocVarsOf(docDirectory, records[0]);
      OverwriteRendersAll(docDirectory, records[1..], existing + {doc.path});
      ResourceNameOfDocFile(records[0].name);
      forall i | 0 <= i < |records| ensures PlannedDocs(docDirectory, records, existing, true)[i].resourceName == records[i].name {
        ResourceNameOfDocFile(records[i].name);
      }
    }
  }

  lemma WrittenPathsAppend(docs: seq<DocVars>, doc: DocVars)
    ensures WrittenPaths(docs + [doc]) == WrittenPaths(docs) + {doc.path}
  {
    assert (docs + [doc])[..|docs|] == docs;
  }

  /** One step of the render loop, at the record with index i, keeps its invariant. */
  lemma PlannedDocsStep(docDirectory: string, records: seq<Record>, existing: set<string>, overwrite: bool,
                        i: nat, docs: seq<DocVars>, existingAfter: set<string>)
    requires i < |records|
    requires docs + PlannedDocs(docDirectory, records[i..], existingAfter, overwrite) ==
      PlannedDocs(docDirectory, records, existing, overwrite)
    ensures var doc := DocVarsOf(docDirectory, records[i]);
      if SkipDoc(doc.path, existingAfter, overwrite) then
        docs + PlannedDocs(docDirectory, records[i + 1..], existingAfter, overwrite) ==
          PlannedDocs(docDirectory, records, existing, overwrite)
      else
        (docs + [doc]) + PlannedDocs(docDirectory, records[i + 1..], existingAfter + {doc.path}, overwrite) ==
          PlannedDocs(docDirectory, records, existing, overwrite)
  {
    var tail := records[i..];
    assert tail[0] == records[i] && tail[1..] == records[i + 1..];
    var doc := DocVarsOf(docDirectory, records[i]);
    if SkipDoc(doc.path, existingAfter, overwrite) {
      assert PlannedDocs(docDirectory, tail, existingAfter, overwrite) ==
        PlannedDocs(docDirectory, records[i + 1..], existingAfter, overwrite);
    } else {
      var rest := PlannedDocs(docDirectory, records[i + 1..], existingAfter + {doc.path}, overwrite);
      assert PlannedDocs(docDirectory, tail, existingAfter, overwrite) == [doc] + rest;
      assert docs + ([doc] + rest) == (docs + [doc]) + rest;
    }
  }

  /** The render loop: writes each doc that is not skipped and counts the files written. */
  method RenderDocs(docDirectory: string, records: seq<Record>, existing: set<string>, overwrite: bool)
    returns (docs: seq<DocVars>, docCount: nat, existingAfter: set<string>)
    ensures docs == PlannedDocs(docDirectory, records, existing, overwrite)
    ensures docCount == |docs|
    ensures existingAfter == existing + WrittenPaths(docs)
  {
    docs, docCount, existingAfter := [], 0, existing;
    var i := 0;
    assert records[0..] == records;
    while i < |records|
      invariant 0 <= i <= |records|
      invariant docs + PlannedDocs(docDirectory, records[i..], existingAfter, overwrite) ==
        PlannedDocs(docDirectory, records, existing, overwrite)
      invariant docCount == |docs|
      invariant existingAfter == existing + WrittenPaths(docs)
    {
      var resource := records[i];
      var filename := DocFileName(resource.name);
      var path := JoinPath(docDirectory, filename);
      PlannedDocsStep(docDirectory, records, existing, overwrite, i, docs, existingAfter);
      if path in existingAfter && !overwrite {
        i := i + 1;
        continue;
      }
      var vars := DocVars(path, DeleteSuffix(filename, ".md"), resource.actions, resource.libraries, resource.properties, resource.uses);
      assert vars == DocVarsOf(docDirectory, records[i]);
      WrittenPathsAppend(docs, vars);
      docs := docs + [vars];
      existingAfter := existingAfter + {path};
      docCount := docCount + 1;
      i := i + 1;
    }
    assert records[i..] == [];
  }

  // ---------------------------------------------------------------------
  // The index

  datatype IndexEntry = IndexEntry(name: string, path: string)

  /** The index is skipped when README.md exists and overwrite is off, or in single-file mode. */
  predicate SkipIndex(readmeExists: bool, overwrite: bool, singleFile: bool)
  {
    (readmeExists && !overwrite) || singleFile
  }

  /** One entry per short name, in order: its record name and the path of its doc file. */
  function IndexEntries(prefix: string, docDirectory: string, shorts: seq<string>): seq<IndexEntry>
  {
    seq(|shorts|, i requires 0 <= i < |shorts| =>
      IndexEntry(prefix + "_" + shorts[i], JoinPath(docDirectory, prefix + "_" + shorts[i] + ".md")))
  }

  /** Each index entry names a record and points at the doc file the render loop writes for it. */
  lemma IndexEntriesMatchDocs(prefix: string, docDirectory: string, shorts: seq<string>)
    ensures |IndexEntries(prefix, docDirectory, shorts)| == |shorts|
    ensures forall i :: 0 <= i < |shorts| ==>
      IndexEntries(prefix, docDirectory, shorts)[i].name == RecordName(prefix, shorts[i]) &&
      IndexEntries(prefix, docDirectory, shorts)[i].path == DocPath(docDirectory, RecordName(prefix, shorts[i]))
  {
  }

  function IndexPlan(cfg: Config, shorts: seq<string>, existing: set<string>): (index: Option<seq<IndexEntry>>)
    ensures index.None? <==>
      SkipIndex(JoinPath(cfg.docDirectory, "README.md") in existing, cfg.overwrite, cfg.resourceFile.Some?)
  {
    if SkipIndex(JoinPath(cfg.docDirectory, "README.md") in existing, cfg.overwrite, cfg.resourceFile.Some?) then None
    else Some(IndexEntries(cfg.cookbookPrefix, cfg.docDirectory, shorts))
  }

  // ---------------------------------------------------------------------
  // Building the records and the whole run

  /** The path of the first short name whose resource file is not a regular file, if any. */
  function FirstMissing(resourceDirectory: string, shorts: seq<string>, files: map<string, string>): (r: Option<string>)
    ensures r.None? <==> forall j :: 0 <= j < |shorts| ==> LoadPath(resourceDirectory, shorts[j]) in files
    ensures r.Some? ==> r.value !in files
    ensures r.Some? ==> exists k :: (0 <= k < |shorts| && r.value == LoadPath(resourceDirectory, shorts[k]) &&
      forall j :: 0 <= j < k ==> LoadPath(resourceDirectory, shorts[j]) in files)
  {
    if shorts == [] then None
    else if LoadPath(resourceDirectory, shorts[0]) !in files then Some(LoadPath(resourceDirectory, shorts[0]))
    else
      var r := FirstMissing(resourceDirectory, shorts[1..], files);
      if r.Some? then
        var k :| 0 <= k < |shorts[1..]| && r.value == LoadPath(resourceDirectory, shorts[1..][k]) &&
          r.value !in files && forall j :: 0 <= j < k ==> LoadPath(resourceDirectory, shorts[1..][j]) in files;
        assert forall j :: 0 <= j < k + 1 ==> LoadPath(resourceDirectory, shorts[j]) in files by {
          forall j | 0 <= j < k + 1 ensures LoadPath(resourceDirectory, shorts[j]) in files {
            if j > 0 { assert shorts[j] == shorts[1..][j - 1]; }
          }
        }
        assert shorts[k + 1] == shorts[1..][k];
        r
      else
        assert forall j :: 0 <= j < |shorts| ==> LoadPath(resourceDirectory, shorts[j]) in files by {
          forall j | 0 <= j < |shorts| ensures LoadPath(resourceDirectory, shorts[j]) in files {
            if j > 0 { assert shorts[j] == shorts[1..][j - 1]; }
          }
        }
        r
  }

  /** The record DummyResource.new(name).load_from_file(path) yields for one short name. */
  function LoadedRecord(cfg: Config, short: string, content: string, evaluate: string -> seq<Stmt>, notPassed: Value): Record
  {
    Load(NewRecord(RecordName(cfg.cookbookPrefix, short)), content, evaluate, notPassed)
  }

  /** files.map { |rf| DummyResource.new(...).load_from_file(...) }: stops at the first missing file. */
  function LoadAll(cfg: Config, shorts: seq<string>, files: map<string, string>, evaluate: string -> seq<Stmt>, notPassed: Value)
    : Result<seq<Record>, DriverError>
  {
    match FirstMissing(cfg.resourceDirectory, shorts, files)
    case Some(p) => Failure(MissingResourceFile(p))
    case None =>
      Success(seq(|shorts|, i requires 0 <= i < |shorts| =>
        LoadedRecord(cfg, shorts[i], files[LoadPath(cfg.resourceDirectory, shorts[i])], evaluate, notPassed)))
  }

  lemma LoadAllLoaded(cfg: Config, shorts: seq<string>, files: map<string, string>, evaluate: string -> seq<Stmt>, notPassed: Value, records: seq<Record>)
    requires |records| == |shorts|
    requires forall j :: 0 <= j < |shorts| ==> LoadPath(cfg.resourceDirectory, shorts[j]) in files
    requires forall j :: 0 <= j < |shorts| ==>
      records[j] == LoadedRecord(cfg, shorts[j], files[LoadPath(cfg.resourceDirectory, shorts[j])], evaluate, notPassed)
    ensures LoadAll(cfg, shorts, files, evaluate, notPassed) == Success(records)
  {
    assert LoadAll(cfg, shorts, files, evaluate, notPassed).value == records;
  }

  lemma LoadAllStopsAt(cfg: Config, shorts: seq<string>, files: map<string, string>, evaluate: string -> seq<Stmt>, notPassed: Value, i: nat)
    requires i < |shorts| && LoadPath(cfg.resourceDirectory, shorts[i]) !in files
    requires forall j :: 0 <= j < i ==> LoadPath(cfg.resourceDirectory, shorts[j]) in files
    ensures LoadAll(cfg, shorts, files, evaluate, notPassed) == Failure(MissingResourceFile(LoadPath(cfg.resourceDirectory, shorts[i])))
  {
    var r := FirstMissing(cfg.resourceDirectory, shorts, files);
    var k :| 0 <= k < |shorts| && r.value == LoadPath(cfg.resourceDirectory, shorts[k]) &&
      forall j :: 0 <= j < k ==> LoadPath(cfg.resourceDirectory, shorts[j]) in files;
    assert k == i;
  }

  /** DummyResource.new(name).load_from_file(path) for one short name. */
  method LoadOne(cfg: Config, short: string, files: map<string, string>, evaluate: string -> seq<Stmt>, notPassed: Value)
    returns (r: Result<Record, DriverError>)
    ensures r.Failure? <==> LoadPath(cfg.resourceDirectory, short) !in files
    ensures r.Failure? ==> r.error == MissingResourceFile(LoadPath(cfg.resourceDirectory, short))
    ensures r.Success? ==> r.value == LoadedRecord(cfg, short, files[LoadPath(cfg.resourceDirectory, short)], evaluate, notPassed)
  {
    var resource := new DummyResource(RecordName(cfg.cookbookPrefix, short));
    var path := LoadPath(cfg.resourceDirectory, short);
    var loaded := resource.LoadFromFile(path, files, evaluate, notPassed);
    if loaded.Failure? {
      return Failure(MissingResourceFile(loaded.error.path));
    }
    return Success(resource.View());
  }

  /** One DummyResource per short name, each loaded from its resource file. */
  method BuildResources(cfg: Config, shorts: seq<string>, files: map<string, string>, evaluate: string -> seq<Stmt>, notPassed: Value)
    returns (r: Result<seq<Record>, DriverError>)
    ensures r == LoadAll(cfg, shorts, files, evaluate, notPassed)
  {
    var records: seq<Record> := [];
    var i := 0;
    while i < |shorts|
      invariant 0 <= i <= |shorts| && |records| == i
      invariant forall j :: 0 <= j < i ==> LoadPath(cfg.resourceDirectory, shorts[j]) in files
      invariant forall j :: 0 <= j < i ==>
        records[j] == LoadedRecord(cfg, shorts[j], files[LoadPath(cfg.resourceDirectory, shorts[j])], evaluate, notPassed)
    {
      var loaded := LoadOne(cfg, shorts[i], files, evaluate, notPassed);
      if loaded.Failure? {
        LoadAllStopsAt(cfg, shorts, files, evaluate, notPassed, i);
        return Failure(loaded.error);
      }
      ghost var before := records;
      records := records + [loaded.value];
      forall j | 0 <= j < i + 1
        ensures records[j] == LoadedRecord(cfg, shorts[j], files[LoadPath(cfg.resourceDirectory, shorts[j])], evaluate, notPassed)
      {
        if j < i {
          assert records[j] == before[j];
        }
      }
      i := i + 1;
    }
    LoadAllLoaded(cfg, shorts, files, evaluate, notPassed, records);
    return Success(records);
  }

  datatype FileSystem = FileSystem(
    regularFiles: map<string, string>,   // the regular files, with their contents
    existing: set<string>,               // every path File.exist? holds for
    listing: Option<seq<string>>)        // Dir.children of the resource directory; None if it does not exist

  datatype Report = Report(docs: seq<DocVars>, docCount: nat, index: Option<seq<IndexEntry>>)

  /** The whole run, after the options are parsed and checked. */
  function GenerateSpec(cfg: Config, fs: FileSystem, evaluate: string -> seq<Stmt>, notPassed: Value): Result<Report, DriverError>
  {
    match ResourceFiles(cfg, fs.listing)
    case Failure(e) => Failure(e)
    case Success(shorts) =>
      match LoadAll(cfg, shorts, fs.regularFiles, evaluate, notPassed)
      case Failure(e) => Failure(e)
      case Success(records) =>
        var docs := PlannedDocs(cfg.docDirectory, records, fs.existing, cfg.overwrite);
        Success(Report(docs, |docs|, IndexPlan(cfg, shorts, fs.existing + WrittenPaths(docs))))
  }

  method Generate(cfg: Config, fs: FileSystem, evaluate: string -> seq<Stmt>, notPassed: Value)
    returns (r: Result<Report, DriverError>)
    ensures r == GenerateSpec(cfg, fs, evaluate, notPassed)
  {
    var files := ResourceFiles(cfg, fs.listing);
    if files.Failure? {
      return Failure(files.error);
    }
    var shorts := files.value;
    var loaded := BuildResources(cfg, shorts, fs.regularFiles, evaluate, notPassed);
    if loaded.Failure? {
      return Failure(loaded.error);
    }
    var docs, docCount, existing := RenderDocs(cfg.docDirectory, loaded.value, fs.existing, cfg.overwrite);
    var index := IndexPlan(cfg, shorts, existing);
    return Success(Report(docs, docCount, index));
  }

  // ---------------------------------------------------------------------
  // Properties of a whole run

  predicate Distinct<T(==)>(s: seq<T>)
  {
    forall i, j :: 0 <= i < j < |s| ==> s[i] != s[j]
  }

  lemma DistinctTail<T>(s: seq<T>)
    requires s != [] && Distinct(s)
    ensures Distinct(s[1..])
  {
    forall i, j | 0 <= i < j < |s[1..]| ensures s[1..][i] != s[1..][j] {
      assert s[1..][i] == s[i + 1] && s[1..][j] == s[j + 1];
    }
  }

  lemma DistinctCons<T>(x: T, s: seq<T>)
    requires Distinct(s) && x !in s
    ensures Distinct([x] + s)
  {
    forall i, j | 0 <= i < j < |[x] + s| ensures ([x] + s)[i] != ([x] + s)[j] {
      assert ([x] + s)[j] == s[j - 1];
      if i > 0 {
        assert ([x] + s)[i] == s[i - 1];
      }
    }
  }

  lemma {:induction false} DistinctOccursOnce<T>(s: seq<T>, x: T)
    requires Distinct(s)
    ensures multiset(s)[x] <= 1
  {
    if s != [] {
      assert s == [s[0]] + s[1..];
      DistinctTail(s);
      DistinctOccursOnce(s[1..], x);
      if s[0] == x {
        assert x !in s[1..] by {
          forall k | 0 <= k < |s[1..]| ensures s[1..][k] != x {
            assert s[1..][k] == s[k + 1];
          }
        }
      }
    }
  }

  lemma RepeatOccursTwice<T>(s: seq<T>, i: nat, j: nat)
    requires i < j < |s| && s[i] == s[j]
    ensures multiset(s)[s[i]] >= 2
  {
    assert s == s[..i] + [s[i]] + s[i + 1..j] + [s[j]] + s[j + 1..];
  }

  /** A permutation of a sequence without repeats has none either. */
  lemma PermutationKeepsDistinct<T>(s: seq<T>, t: seq<T>)
    requires Distinct(s) && multiset(s) == multiset(t)
    ensures Distinct(t)
  {
    forall i, j | 0 <= i < j < |t| ensures t[i] != t[j] {
      if t[i] == t[j] {
        RepeatOccursTwice(t, i, j);
        DistinctOccursOnce(s, t[i]);
      }
    }
  }

  lemma {:induction false} RubyFileStemsDistinct(children: seq<string>)
    requires Distinct(children)
    requires forall i :: 0 <= i < |children| ==> '/' !in children[i]
    ensures Distinct(RubyFileStems(children))
  {
    if children != [] {
      var rest := children[1..];
      DistinctTail(children);
      RubyFileStemsDistinct(rest);
      var c := children[0];
      if IsResourceFile(c) {
        var stem := BaseNameNoExt(c);
        RubyFileStemsMembers(rest);
        ResourceFileShortName(c);
        DistinctCons(stem, RubyFileStems(rest));
      }
    }
  }

  /** Dir.children never repeats a name, so neither do the short names. */
  lemma ShortNamesDistinct(children: seq<string>)
    requires Distinct(children)
    requires forall i :: 0 <= i < |children| ==> '/' !in children[i]
    ensures Distinct(ShortNames(children))
  {
    RubyFileStemsDistinct(children);
    PermutationKeepsDistinct(RubyFileStems(children), ShortNames(children));
  }

  /** Loaded records carry their record names, in short-name order. */
  lemma LoadAllNames(cfg: Config, shorts: seq<string>, files: map<string, string>, evaluate: string -> seq<Stmt>, notPassed: Value)
    requires LoadAll(cfg, shorts, files, evaluate, notPassed).Success?
    ensures |LoadAll(cfg, shorts, files, evaluate, notPassed).value| == |shorts|
    ensures forall i :: 0 <= i < |shorts| ==>
      LoadAll(cfg, shorts, files, evaluate, notPassed).value[i].name == RecordName(cfg.cookbookPrefix, shorts[i])
  {
    var records := LoadAll(cfg, shorts, files, evaluate, notPassed).value;
    forall i | 0 <= i < |shorts| ensures records[i].name == RecordName(cfg.cookbookPrefix, shorts[i]) {
      LoadEffect(NewRecord(RecordName(cfg.cookbookPrefix, shorts[i])), files[LoadPath(cfg.resourceDirectory, shorts[i])], evaluate, notPassed);
    }
  }

  /** The records of distinct short names have distinct doc paths. */
  lemma LoadAllDistinctDocPaths(cfg: Config, shorts: seq<string>, files: map<string, string>, evaluate: string -> seq<Stmt>, notPassed: Value)
    requires Distinct(shorts)
    requires LoadAll(cfg, shorts, files, evaluate, notPassed).Success?
    ensures DistinctDocPaths(cfg.docDirectory, LoadAll(cfg, shorts, files, evaluate, notPassed).value)
  {
    var records := LoadAll(cfg, shorts, files, evaluate, notPassed).value;
    LoadAllNames(cfg, shorts, files, evaluate, notPassed);
    forall i, j | 0 <= i < j < |records|
      ensures DocPath(cfg.docDirectory, records[i].name) != DocPath(cfg.docDirectory, records[j].name)
    {
      DocPathsDistinct(cfg.docDirectory, cfg.cookbookPrefix, shorts[i], shorts[j]);
    }
  }

  /** A successful run: the short names and the records were obtained, and the report is made of the planned docs and the index plan. */
  lemma GenerateShape(cfg: Config, fs: FileSystem, evaluate: string -> seq<Stmt>, notPassed: Value)
    requires GenerateSpec(cfg, fs, evaluate, notPassed).Success?
    ensures ResourceFiles(cfg, fs.listing).Success?
    ensures LoadAll(cfg, ResourceFiles(cfg, fs.listing).value, fs.regularFiles, evaluate, notPassed).Success?
    ensures var shorts := ResourceFiles(cfg, fs.listing).value;
      var records := LoadAll(cfg, shorts, fs.regularFiles, evaluate, notPassed).value;
      var docs := PlannedDocs(cfg.docDirectory, records, fs.existing, cfg.overwrite);
      GenerateSpec(cfg, fs, evaluate, notPassed).value ==
        Report(docs, |docs|, IndexPlan(cfg, shorts, fs.existing + WrittenPaths(docs)))
  {
  }

  /** The short names of a run repeat no name: Dir.children never does. */
  lemma GenerateShortNamesDistinct(cfg: Config, listing: Option<seq<string>>)
    requires cfg.resourceFile.None? ==> listing.Some? && Distinct(listing.value)
    requires cfg.resourceFile.None? ==> forall i :: 0 <= i < |listing.value| ==> '/' !in listing.value[i]
    requires ResourceFiles(cfg, listing).Success?
    ensures Distinct(ResourceFiles(cfg, listing).value)
  {
    if cfg.resourceFile.None? {
      ShortNamesDistinct(listing.value);
    }
  }

  /**
   * A successful run writes the doc of every record whose doc file did not
   * exist before (every one with overwrite), doc_count counts them, and each
   * is named after one of the short names.
   */
  lemma GenerateDocs(cfg: Config, fs: FileSystem, evaluate: string -> seq<Stmt>, notPassed: Value)
    requires cfg.resourceFile.None? ==> fs.listing.Some? && Distinct(fs.listing.value)
    requires cfg.resourceFile.None? ==> forall i :: 0 <= i < |fs.listing.value| ==> '/' !in fs.listing.value[i]
    requires GenerateSpec(cfg, fs, evaluate, notPassed).Success?
    ensures ResourceFiles(cfg, fs.listing).Success?
    ensures LoadAll(cfg, ResourceFiles(cfg, fs.listing).value, fs.regularFiles, evaluate, notPassed).Success?
    ensures var shorts := ResourceFiles(cfg, fs.listing).value;
      var records := LoadAll(cfg, shorts, fs.regularFiles, evaluate, notPassed).value;
      var rep := GenerateSpec(cfg, fs, evaluate, notPassed).value;
      && rep.docCount == |rep.docs| <= |shorts|
      && rep.docs == Unskipped(cfg.docDirectory, records, fs.existing, cfg.overwrite)
      && (cfg.overwrite ==> rep.docCount == |shorts|)
  {
    GenerateShape(cfg, fs, evaluate, notPassed);
    var shorts := ResourceFiles(cfg, fs.listing).value;
    var records := LoadAll(cfg, shorts, fs.regularFiles, evaluate, notPassed).value;
    GenerateShortNamesDistinct(cfg, fs.listing);
    LoadAllDistinctDocPaths(cfg, shorts, fs.regularFiles, evaluate, notPassed);
    LoadAllNames(cfg, shorts, fs.regularFiles, evaluate, notPassed);
    PlannedDocsUnskipped(cfg.docDirectory, records, fs.existing, cfg.overwrite);
    if cfg.overwrite {
      OverwriteRendersAll(cfg.docDirectory, records, fs.existing);
    }
  }

  /** Every doc of a run is named after one of the short names. */
  lemma GenerateDocNames(cfg: Config, fs: FileSystem, evaluate: string -> seq<Stmt>, notPassed: Value, i: nat)
    returns (j: nat)
    requires GenerateSpec(cfg, fs, evaluate, notPassed).Success?
    requires i < |GenerateSpec(cfg, fs, evaluate, notPassed).value.docs|
    ensures ResourceFiles(cfg, fs.listing).Success?
    ensures j < |ResourceFiles(cfg, fs.listing).value|
    ensures GenerateSpec(cfg, fs, evaluate, notPassed).value.docs[i].resourceName ==
      RecordName(cfg.cookbookPrefix, ResourceFiles(cfg, fs.listing).value[j])
  {
    GenerateShape(cfg, fs, evaluate, notPassed);
    var shorts := ResourceFiles(cfg, fs.listing).value;
    var records := LoadAll(cfg, shorts, fs.regularFiles, evaluate, notPassed).value;
    LoadAllNames(cfg, shorts, fs.regularFiles, evaluate, notPassed);
    j := PlannedDocsOrigin(cfg.docDirectory, records, fs.existing, cfg.overwrite, i);
  }

  /** The index of a run: skipped iff README.md exists after rendering and overwrite is off, or in single-file mode; otherwise one entry per short name. */
  lemma GenerateIndex(cfg: Config, fs: FileSystem, evaluate: string -> seq<Stmt>, notPassed: Value)
    requires GenerateSpec(cfg, fs, evaluate, notPassed).Success?
    ensures ResourceFiles(cfg, fs.listing).Success?
    ensures var rep := GenerateSpec(cfg, fs, evaluate, notPassed).value;
      && (rep.index.None? <==>
           SkipIndex(JoinPath(cfg.docDirectory, "README.md") in fs.existing + WrittenPaths(rep.docs), cfg.overwrite, cfg.resourceFile.Some?))
      && (rep.index.Some? ==> rep.index.value == IndexEntries(cfg.cookbookPrefix, cfg.docDirectory, ResourceFiles(cfg, fs.listing).value))
  {
    GenerateShape(cfg, fs, evaluate, notPassed);
  }
}
