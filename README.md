# chef_doc_builder, modelled in Dafny

chef_doc_builder writes Markdown documentation for the custom resources of a
Chef cookbook. Its driver script:

1. checks that a documentation directory was given;
2. lists the cookbook's resource files by short name;
3. builds one `ChefDocBuilder::DummyResource` per short name and loads the
   resource file into it;
4. renders one doc file per resource, skipping files that already exist
   unless overwrite is set, and counts the files written;
5. writes a README index, unless that is skipped.

A `DummyResource` is loaded in three steps:

- It scans the file for `include <library>` lines, indented or not.
- It comments out every line that starts with `include` at column 0.
- It evaluates the rewritten text. The resource DSL verbs `action`,
  `property`, `use`, `provides` and `require` append to the object's lists;
  `unified_mode` sets the object's mode, replacing the previous one;
  `action_class`, `lazy` and `load_current_value` do nothing.

The project has six files:

- `wrappers.dfy`: `Option` and `Result`.
- `ruby_values.dfy`: the Ruby values a resource file passes to the verbs.
  It covers `Kernel#Array` and the insertion-ordered `Hash`, with `[]=`
  and `merge`.
- `include_text.dfy`: the two text passes of `load_from_file`, taken line
  by line. Ruby's `^`, `$` and `.` work per line. The `\s` of `(?:\s+)?`
  also matches a line feed, so a scan match can start on an earlier line
  made only of blanks. It still ends on the line holding `include `, preceded
  there by blanks only, and captures that line's target; a line of blanks
  captures nothing of its own. The captures are therefore those of the
  line-by-line scan.
- `string_order.dfy`: `String#<=>` and the sort of the short names.
- `dummy_resource.dfy`: the record and the `DummyResource` class.
  - The class has one field per instance variable, and a method per verb
    that changes the object in place.
  - `View()` reads the object's state as a `Record` value.
  - `Exec` and `ExecAll` give the effect of the verb calls as functions.
  - `instance_eval` is replaced by a parameter `evaluate`. It maps the
    rewritten text to the sequence of verb calls the text makes.
- `docs_builder.dfy`: the driver.
  - It covers `nil_or_empty_any?`, the required-option check, the
    short-name list, and the record, doc and index names.
  - The render loop is the method `RenderDocs`, specified by
    `PlannedDocs`.
  - `Generate` is the whole run after option parsing. It is specified by
    `GenerateSpec`.
  - The file system is given as data: the regular files and their
    contents, every existing path, and the listing of the resource
    directory.

The Ruby instance variable `@requires` is the field `required` here, since
`requires` is a Dafny keyword.

In single-file mode the script keeps only the base name of the given file.
It then loads `<resource-directory>/<base name>.rb`, not the given path.
`GenerateSpec` reproduces this: with `resourceFile` set, only
`LoadPath(resourceDirectory, BaseNameNoExt(file))` is read.

## Model

| member | source | states |
|---|---|---|
| RubyValues.ArrayOf | lib/chef_doc_builder/dummy_resource.rb:54 | `Array(v)`: nil, `[]` and `{}` give `[]`; an array is kept; a hash gives its `[key, value]` pairs; any other value is wrapped |
| RubyValues.Lookup | lib/chef_doc_builder/dummy_resource.rb:52-55 | `Hash#[]`: a key is absent iff it is not among the keys; a found value is stored under that key |
| RubyValues.Store | lib/chef_doc_builder/dummy_resource.rb:55 | `Hash#[]=`: an existing key keeps its place and the key order; a new key is appended at the end |
| RubyValues.StoreLookup | lib/chef_doc_builder/dummy_resource.rb:55 | after `Hash#[]=`, the key maps to the new value and every other key keeps its value |
| RubyValues.StoreKeepsDistinct | lib/chef_doc_builder/dummy_resource.rb:55 | `Hash#[]=` never makes a key occur twice |
| RubyValues.Merge | lib/chef_doc_builder/dummy_resource.rb:55 | `Hash#merge`: the keys of the receiver come first; the keys are those of either hash and stay distinct |
| RubyValues.MergeLookup | lib/chef_doc_builder/dummy_resource.rb:55 | after `merge`, a key of the argument has the argument's value; any other key keeps the receiver's |
| StringOrder.LexTotal | docs_builder.rb:105 | `String#<=>` orders any two strings |
| StringOrder.LexTransitive | docs_builder.rb:105 | `String#<=>` is transitive |
| StringOrder.LexAntisymmetric | docs_builder.rb:105 | two strings ordered both ways are equal |
| StringOrder.LexCommonPrefix | docs_builder.rb:105 | a common prefix does not change the order of two strings |
| StringOrder.Insert | docs_builder.rb:105 | inserting adds exactly that element: the result is a permutation of the list plus it |
| StringOrder.InsertSorted | docs_builder.rb:105 | inserting into a sorted list keeps it sorted |
| StringOrder.Sort | docs_builder.rb:105 | `Array#sort` of strings: sorted, and a permutation of the input |
| IncludeText.Lines | lib/chef_doc_builder/dummy_resource.rb:42-44 | the text is split into at least one line, and no line holds a line feed |
| IncludeText.UnlinesOfLines | lib/chef_doc_builder/dummy_resource.rb:42-44 | joining the lines gives back the text |
| IncludeText.LinesOfUnlines | lib/chef_doc_builder/dummy_resource.rb:42-44 | splitting a join of line-feed-free lines gives back the lines |
| IncludeText.LinesOfSingleLine | lib/chef_doc_builder/dummy_resource.rb:42-44 | a text without a line feed is one line |
| IncludeText.LinesOfNewline | lib/chef_doc_builder/dummy_resource.rb:42-44 | a text `x\ny` is the line `x` followed by the lines of `y` |
| IncludeText.LeadingBlanks | lib/chef_doc_builder/dummy_resource.rb:42 | the length of the run of blanks the line starts with: all of them blanks, and the next character is not one |
| IncludeText.Dedent | lib/chef_doc_builder/dummy_resource.rb:42 | `(?:\s+)?` on one line: the line without its leading blanks |
| IncludeText.DedentShape | lib/chef_doc_builder/dummy_resource.rb:42 | `(?:\s+)?` on one line: removes a prefix of blanks, and the rest does not start with a blank |
| IncludeText.DedentBlankPrefix | lib/chef_doc_builder/dummy_resource.rb:42 | the blanks before non-blank text are exactly what is removed |
| IncludeText.IncludeTarget | lib/chef_doc_builder/dummy_resource.rb:42 | the match of `/^(?:\s+)?include (?<lib>.*)$/` on one line: the text after the leading blanks and `include `, or nothing when the line does not match |
| IncludeText.IncludeTargetSound | lib/chef_doc_builder/dummy_resource.rb:42 | a captured target is what follows `include ` after the leading blanks of the line |
| IncludeText.IncludeTargetOf | lib/chef_doc_builder/dummy_resource.rb:42 | any blank indentation, then `include t`, captures `t` |
| IncludeText.Captures | lib/chef_doc_builder/dummy_resource.rb:42 | the targets of a run of lines, line after line, duplicates kept |
| IncludeText.ScanIncludes | lib/chef_doc_builder/dummy_resource.rb:42 | `String#scan` of the include pattern: the targets of the include lines, in file order, duplicates kept |
| IncludeText.CapturesOfOneLine | lib/chef_doc_builder/dummy_resource.rb:42 | one line contributes its target, or nothing |
| IncludeText.CapturesAppend | lib/chef_doc_builder/dummy_resource.rb:42 | the scan of two runs of lines is the scan of the first, then of the second |
| IncludeText.CapturesLength | lib/chef_doc_builder/dummy_resource.rb:42 | the scan captures at most one library per line |
| IncludeText.CapturedFrom | lib/chef_doc_builder/dummy_resource.rb:42 | every captured library is the target of some line |
| IncludeText.CapturesEvery | lib/chef_doc_builder/dummy_resource.rb:42 | the target of every include line is captured |
| IncludeText.CapturesSpec | lib/chef_doc_builder/dummy_resource.rb:42 | at most one library per line; a library is listed iff some line captures it |
| IncludeText.IncludeLines | lib/chef_doc_builder/dummy_resource.rb:42 | one line `include t` per target, in order |
| IncludeText.ScanOfIncludeLines | lib/chef_doc_builder/dummy_resource.rb:42 | a text made only of `include t` lines gives back exactly those targets, in order |
| IncludeText.CapturesOfIncludeLines | lib/chef_doc_builder/dummy_resource.rb:42 | a run of `include t` lines captures exactly those targets |
| IncludeText.RewriteLine | lib/chef_doc_builder/dummy_resource.rb:44 | one line: a `#` is put before it iff it starts with `include` |
| IncludeText.RewriteIncludes | lib/chef_doc_builder/dummy_resource.rb:44 | `gsub!(/^include/, '#include')`: every line is rewritten on its own and the lines are joined again |
| IncludeText.RewriteIncludesLines | lib/chef_doc_builder/dummy_resource.rb:44 | the rewrite keeps the number of lines; a line gets a `#` iff it starts with `include` at column 0 |
| IncludeText.RewriteLeavesNoColumnZeroInclude | lib/chef_doc_builder/dummy_resource.rb:44 | after the rewrite no line starts with `include` |
| IncludeText.RewriteIdempotent | lib/chef_doc_builder/dummy_resource.rb:44 | rewriting twice is rewriting once |
| IncludeText.ColumnZeroInclude | lib/chef_doc_builder/dummy_resource.rb:42-44 | `include t` at column 0 is captured as `t` and commented out |
| IncludeText.IndentedIncludeNotRewritten | lib/chef_doc_builder/dummy_resource.rb:42-44 | an indented `include t` is captured but left active |
| IncludeText.IncludeWithoutSpaceCommentedNotCaptured | lib/chef_doc_builder/dummy_resource.rb:42-44 | a column-0 line starting with `include` not followed by a space (`include_recipe …`) is commented out but captures nothing |
| IncludeText.OtherLineUntouched | lib/chef_doc_builder/dummy_resource.rb:42-44 | a line whose first non-blank text is not `include` is neither captured nor rewritten |
| IncludeText.ScanSplitAtNewline | lib/chef_doc_builder/dummy_resource.rb:42 | the scan of `first\nrest` is the scan of `first`, then of `rest` |
| IncludeText.RewriteSplitAtNewline | lib/chef_doc_builder/dummy_resource.rb:44 | the rewrite of `first\nrest` is the rewrite of `first`, a line feed, then the rewrite of `rest` |
| IncludeText.IncludeOnFirstLine | lib/chef_doc_builder/dummy_resource.rb:42-44 | `include t` followed by an ordinary line: `t` is the only capture, and only the first line is commented out |
| ChefDocBuilder.NewRecord | lib/chef_doc_builder/dummy_resource.rb:9-18 | the state of a new resource: its name, empty lists and a nil mode |
| ChefDocBuilder.PropertyHash | lib/chef_doc_builder/dummy_resource.rb:51-55 | the property hash has the keys `name` and `type` first, then those of the options, and no repeated key |
| ChefDocBuilder.PropertyHashLookup | lib/chef_doc_builder/dummy_resource.rb:51-55 | a key given as an option has the option's value, `name` and `type` included; otherwise `name` is the declared name and `type` is `Array(type)` |
| ChefDocBuilder.PropertyTypeNormalised | lib/chef_doc_builder/dummy_resource.rb:51-55 | `type` becomes `[]` for nil, stays an array, wraps a scalar, and is `Array(NOT_PASSED)` when omitted |
| ChefDocBuilder.Exec | lib/chef_doc_builder/dummy_resource.rb:20-74 | a verb call keeps the name and libraries, and each list only grows as a prefix |
| ChefDocBuilder.ExecStep | lib/chef_doc_builder/dummy_resource.rb:20-74 | a verb call appends its argument to its own list and to no other; `property` appends its hash; `unified_mode` sets the mode |
| ChefDocBuilder.ExecAll | lib/chef_doc_builder/dummy_resource.rb:46 | the verb calls of the evaluated text applied one after another, in order |
| ChefDocBuilder.ExecAllLists | lib/chef_doc_builder/dummy_resource.rb:20-74 | after the calls, each list is the old list followed by the arguments of the calls to its verb, in order; name and libraries are kept |
| ChefDocBuilder.ExecAllProperties | lib/chef_doc_builder/dummy_resource.rb:51-62 | after the calls, the properties are the old ones followed by the hash of each property call; the mode is the last `unified_mode` argument |
| ChefDocBuilder.ExecAllEffect | lib/chef_doc_builder/dummy_resource.rb:20-74 | the whole effect of a sequence of calls on every field |
| ChefDocBuilder.ExecAllAppend | lib/chef_doc_builder/dummy_resource.rb:46 | evaluating `a` then `b` is evaluating `a + b` |
| ChefDocBuilder.NoOpsChangeNothing | lib/chef_doc_builder/dummy_resource.rb:24-34 | `action_class`, `lazy` and `load_current_value` leave the record unchanged |
| ChefDocBuilder.NoDeclarationsEmptyRecord | lib/chef_doc_builder/dummy_resource.rb:9-34 | a file of no-ops yields the initial record: empty lists and a nil mode |
| ChefDocBuilder.Load | lib/chef_doc_builder/dummy_resource.rb:39-48 | `load_from_file` on an existing file: the scanned libraries are appended, then the calls of the rewritten text are applied |
| ChefDocBuilder.LoadEffect | lib/chef_doc_builder/dummy_resource.rb:36-49 | loading keeps the name, appends the scanned libraries, appends what the rewritten text declares, and leaves the mode set by its last `unified_mode` call |
| ChefDocBuilder.WidgetScenario | lib/chef_doc_builder/dummy_resource.rb:20-66 | `action :create`, `property :size, [String, Integer]` and `use 'partial_a'` give exactly one action, one property hash and one partial |
| ChefDocBuilder.IncludedLibraryRecorded | lib/chef_doc_builder/dummy_resource.rb:36-49 | an `include` first line is recorded as the only library and is commented out; when a comment line declares nothing, exactly the second line's declarations are applied |
| ChefDocBuilder.DummyResource.constructor | lib/chef_doc_builder/dummy_resource.rb:9-18 | a new resource has its name, empty lists and a nil mode |
| ChefDocBuilder.DummyResource.Action | lib/chef_doc_builder/dummy_resource.rb:20-22 | appends the action, changes nothing else, returns the action list |
| ChefDocBuilder.DummyResource.ActionClass | lib/chef_doc_builder/dummy_resource.rb:24-26 | returns nil and changes nothing |
| ChefDocBuilder.DummyResource.Lazy | lib/chef_doc_builder/dummy_resource.rb:28-30 | returns nil and changes nothing |
| ChefDocBuilder.DummyResource.LoadCurrentValue | lib/chef_doc_builder/dummy_resource.rb:32-34 | returns nil and changes nothing |
| ChefDocBuilder.DummyResource.Property | lib/chef_doc_builder/dummy_resource.rb:51-58 | appends the property hash, changes nothing else, returns the property list |
| ChefDocBuilder.DummyResource.UnifiedMode | lib/chef_doc_builder/dummy_resource.rb:60-62 | sets the mode, changes nothing else, returns the value |
| ChefDocBuilder.DummyResource.Use | lib/chef_doc_builder/dummy_resource.rb:64-66 | appends the partial, changes nothing else, returns the list |
| ChefDocBuilder.DummyResource.Provides | lib/chef_doc_builder/dummy_resource.rb:68-70 | appends to `provide`, changes nothing else, returns the list |
| ChefDocBuilder.DummyResource.Require | lib/chef_doc_builder/dummy_resource.rb:72-74 | appends the gem, changes nothing else, returns the list |
| ChefDocBuilder.DummyResource.Apply | lib/chef_doc_builder/dummy_resource.rb:20-74 | a call of any verb has the effect `Exec` gives it |
| ChefDocBuilder.DummyResource.Evaluate | lib/chef_doc_builder/dummy_resource.rb:46 | evaluating the file's calls in order has the effect `ExecAll` gives them |
| ChefDocBuilder.DummyResource.LoadFromFile | lib/chef_doc_builder/dummy_resource.rb:36-49 | a path that is not a regular file raises and changes nothing; otherwise the libraries are appended, the rewritten text is evaluated, and the resource itself is returned |
| DocsBuilder.NilOrEmpty | docs_builder.rb:13 | one value is nil, or responds to `empty?` (string, symbol, array, hash) and is empty |
| DocsBuilder.NilOrEmptyAny | docs_builder.rb:12-14 | true iff some argument is nil, or an empty string, symbol, array or hash |
| DocsBuilder.JoinWith | docs_builder.rb:93 | `Array#join(', ')`: the parts with the separator between each two |
| DocsBuilder.MissingOptions | docs_builder.rb:90 | exactly the required options that are absent, or nil or empty |
| DocsBuilder.CheckRequiredOptions | docs_builder.rb:90-93 | fails iff `doc-directory` is absent, nil or empty, and the error names it |
| DocsBuilder.LastIndexOf | docs_builder.rb:103-105 | the last position of the character, or none when it does not occur |
| DocsBuilder.ExtName | docs_builder.rb:105 | `File.extname`: empty, or the suffix from the last `.` when something other than dots comes before it |
| DocsBuilder.ExtNameAtLastDot | docs_builder.rb:105 | at the last `.` of a name, the extension is empty iff only dots come before it, and otherwise runs from that `.` |
| DocsBuilder.StemAndExtension | docs_builder.rb:103 | a name is its stem followed by its extension |
| DocsBuilder.LastComponent | docs_builder.rb:103-105 | the part of the path after its last `/`: a suffix with no `/`, which is the whole path or starts right after a `/` |
| DocsBuilder.IsResourceFile | docs_builder.rb:105 | `File.extname(f).eql?('.rb')` |
| DocsBuilder.BaseNameNoExt | docs_builder.rb:103 | `File.basename(f, '.*')`: the last path component without its extension |
| DocsBuilder.ResourceFileShortName | docs_builder.rb:105 | the short name of a `.rb` entry is the entry without `.rb`, and adding `.rb` gives the entry back |
| DocsBuilder.ShortNameResourceFile | docs_builder.rb:105 | a `.rb` name gives back its short name |
| DocsBuilder.RubyFileStems | docs_builder.rb:105 | the filter and map keep at most as many names as entries |
| DocsBuilder.RubyFileStemsMembers | docs_builder.rb:105 | `s` is a stem iff `s.rb` is an entry with extension `.rb` |
| DocsBuilder.ShortNames | docs_builder.rb:105 | the stems of the `.rb` entries of the directory, sorted |
| DocsBuilder.ShortNamesSpec | docs_builder.rb:105 | the short names are sorted, no more than the entries, and `s` is one iff `s.rb` is a `.rb` entry |
| DocsBuilder.SingleFileShortName | docs_builder.rb:103 | the single-file short name is the last path component without its extension, and holds no `/` |
| DocsBuilder.ResourceFiles | docs_builder.rb:101-110 | the short names: the base name of the given file in single-file mode; otherwise the sorted `.rb` stems of the directory, or an error when the directory does not exist |
| DocsBuilder.RubyFileStemsDistinct | docs_builder.rb:105 | distinct entries give distinct stems |
| DocsBuilder.ShortNamesDistinct | docs_builder.rb:105 | the short names repeat no name |
| DocsBuilder.PermutationKeepsDistinct | docs_builder.rb:105 | sorting keeps a list free of repeats |
| DocsBuilder.RecordName | docs_builder.rb:114 | the record name `prefix_short` |
| DocsBuilder.LoadPath | docs_builder.rb:114 | the file a record is loaded from: `<resource-directory>/<short>.rb` |
| DocsBuilder.RecordNameParts | docs_builder.rb:114 | the record name `prefix_short` gives back its prefix and short name |
| DocsBuilder.RecordNameOrder | docs_builder.rb:114 | record names sort as their short names do |
| DocsBuilder.DocFileName | docs_builder.rb:121 | the doc file name `<record name>.md` |
| DocsBuilder.DeleteSuffix | docs_builder.rb:130 | `delete_suffix`: a present suffix is removed; otherwise the string is kept |
| DocsBuilder.ResourceNameOfDocFile | docs_builder.rb:121-130 | `resource_name` equals the record's name |
| DocsBuilder.ChompSlashes | docs_builder.rb:122 | a prefix of the path with no trailing `/`, and what it removes is all `/` characters |
| DocsBuilder.JoinPath | docs_builder.rb:122 | `File.join` of a directory and a file name: one `/` between them, unless the directory ends with one; a file starting with `/` replaces the directory's trailing `/`s |
| DocsBuilder.DocPath | docs_builder.rb:122 | the path of a record's doc file under the doc directory |
| DocsBuilder.JoinPathInjective | docs_builder.rb:122 | `File.join` under one directory sends different file names to different paths |
| DocsBuilder.DocPathsDistinct | docs_builder.rb:114-122 | distinct short names have distinct doc paths |
| DocsBuilder.DocVarsOf | docs_builder.rb:121-135 | the doc of one resource: the path `File.join(doc-directory, "<name>.md")` and the template variables `resource_name`, `actions`, `libraries`, `properties` and `uses` |
| DocsBuilder.SkipDoc | docs_builder.rb:122 | a doc file is skipped iff it exists and overwrite is off |
| DocsBuilder.PlannedDocs | docs_builder.rb:120-141 | no more docs are written than there are resources |
| DocsBuilder.PlannedDocsOrigin | docs_builder.rb:120-135 | every written doc is one resource's, has its variables, is named after it, and its file was not skipped against the files that existed before |
| DocsBuilder.UnskippedIgnores | docs_builder.rb:122 | a path no resource writes does not affect which docs are skipped |
| DocsBuilder.PlannedDocsUnskipped | docs_builder.rb:120-141 | with distinct doc paths, a doc is written iff its file did not exist before or overwrite is set |
| DocsBuilder.OverwriteRendersAll | docs_builder.rb:120-141 | with overwrite, every resource gets its doc, in order, named after it |
| DocsBuilder.WrittenPathsAppend | docs_builder.rb:122-135 | writing one more doc adds exactly its path to the written paths |
| DocsBuilder.PlannedDocsStep | docs_builder.rb:120-135 | one step of the render loop, skip or write, keeps the loop's plan invariant |
| DocsBuilder.RenderDocs | docs_builder.rb:118-141 | the loop writes the planned docs, `doc_count` is their number, and the written paths exist afterwards |
| DocsBuilder.SkipIndex | docs_builder.rb:146 | the index is skipped iff README.md exists and overwrite is off, or in single-file mode |
| DocsBuilder.IndexEntries | docs_builder.rb:151-153 | one entry per short name, in order: `prefix_short` and the path of its doc file |
| DocsBuilder.IndexEntriesMatchDocs | docs_builder.rb:151-153 | one index entry per short name, with the record name and its doc path |
| DocsBuilder.IndexPlan | docs_builder.rb:146-153 | no index iff README.md exists and overwrite is off, or in single-file mode |
| DocsBuilder.FirstMissing | docs_builder.rb:114 | none iff every resource file is a regular file; otherwise the first path that is not |
| DocsBuilder.LoadedRecord | docs_builder.rb:114 | `DummyResource.new("<prefix>_<short>").load_from_file(...)` on the content of an existing file |
| DocsBuilder.LoadAll | docs_builder.rb:114 | one loaded record per short name, in order, or the error of the first resource file that is missing |
| DocsBuilder.LoadAllLoaded | docs_builder.rb:114 | when every file loads, the records are those of the short names, in order |
| DocsBuilder.LoadAllStopsAt | docs_builder.rb:114 | the first missing resource file stops the run with that path |
| DocsBuilder.LoadOne | docs_builder.rb:114 | one short name: fails iff its file is missing; otherwise a new resource named `prefix_short`, loaded from its file |
| DocsBuilder.BuildResources | docs_builder.rb:114 | builds and loads one resource per short name, in order, and stops at the first missing file |
| DocsBuilder.LoadAllNames | docs_builder.rb:114 | the records carry the record names of the short names, in order |
| DocsBuilder.LoadAllDistinctDocPaths | docs_builder.rb:114-122 | distinct short names give records with distinct doc paths |
| DocsBuilder.GenerateSpec | docs_builder.rb:101-157 | the whole run after option parsing: the short names, the records, the docs rendered with their count, and the index, or the first error |
| DocsBuilder.Generate | docs_builder.rb:101-157 | the run computes `GenerateSpec`: short names, resources, rendered docs with their count, then the index |
| DocsBuilder.GenerateShortNamesDistinct | docs_builder.rb:103-105 | the short names of a run repeat no name when the directory entries do not |
| DocsBuilder.GenerateDocs | docs_builder.rb:118-141 | after a successful run, `doc_count` is the number of docs written, at most the number of short names, and equal to it with overwrite; a doc is written iff its file did not exist before or overwrite is set |
| DocsBuilder.GenerateDocNames | docs_builder.rb:114-130 | every doc of a successful run is named `prefix_short` for one of the short names |
| DocsBuilder.GenerateIndex | docs_builder.rb:144-157 | the index of a successful run is skipped iff README.md exists after rendering and overwrite is off, or in single-file mode; otherwise it lists every short name |

## Left out

- The evaluation of Ruby code (`instance_eval`) is left out. The parameter `evaluate` gives the verb calls a rewritten text makes, with their arguments already evaluated.
- Ruby errors raised while evaluating a resource file are left out. These include unknown DSL methods, wrong arities and syntax errors.
- The value of `NOT_PASSED` is a parameter. The constant is not defined in either source file.
- `INCLUDE_REGEX` is declared but never used, so it is not modelled.
- The class has no reader for `@unified_mode`. The model keeps the field, but nothing reads it.
- Option parsing is left out. This covers `OptionParser`, `File.expand_path`, the defaults, and the checks inside the option blocks.
- Logging, `--help`, `--version` and the exit codes are left out. Errors are returned as `DriverError` values instead.
- `CheckRequiredOptions` is not part of `Generate`, because option parsing comes before it and is left out.
- File I/O is given as data: `mkdir_p`, `File.read` and `File.write`. Rendering the ERB templates is left out. The model returns the template variables and the path each doc would be written to.
- File.extname is modelled only for names without a leading directory part. In single-file mode, BaseNameNoExt does not strip trailing `/` characters the way `File.basename` does.
- Dir.children failing with `ENOTDIR` or `EACCES` is left out. Only a missing directory (`ENOENT`) is modelled.
- Only the Ruby values in `RubyValues.Value` are modelled: nil, booleans, integers, strings, symbols, constants, arrays and hashes. Floats, ranges, procs and other objects are left out.
- DocsBuilder.GenerateDocs: the doc-per-file result requires distinct directory entries without `/`, as `Dir.children` returns them.
- DocsBuilder.PlannedDocsUnskipped: requires distinct doc paths. The driver always meets this, per `LoadAllDistinctDocPaths`.
- ChefDocBuilder.Exec: its own contract states only that the name and libraries are kept and that the lists grow. `ExecStep` states the exact effect.
