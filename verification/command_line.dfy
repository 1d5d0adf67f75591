/**
 * The part of the command-line entry point that decides things: which CSV
 * path to write (the explicit one, or the input path with its final suffix
 * replaced by ".csv", the way pathlib's `with_suffix` does it) and which
 * exit code to return.
 */
module CommandLine {
  import opened Wrappers

  // ---------------------------------------------------------------------------
  // Paths
  // ---------------------------------------------------------------------------

  /** The index of the last occurrence of `c` in `s` (Python's `str.rfind`). */
  function RFind(s: string, c: char): (r: Option<nat>)
    ensures r.Some? ==> r.value < |s| && s[r.value] == c
    ensures r.Some? ==> forall k :: r.value < k < |s| ==> s[k] != c
    ensures r.None? ==> forall k :: 0 <= k < |s| ==> s[k] != c
    decreases |s|
  {
    if |s| == 0 then None
    else if s[|s| - 1] == c then Some(|s| - 1)
    else RFind(s[..|s| - 1], c)
  }

  /** Where the final component of a path starts: just after its last '/'. */
  function NameStart(p: string): (k: nat)
    ensures k <= |p|
    ensures k > 0 ==> p[k - 1] == '/'
    ensures forall j :: k <= j < |p| ==> p[j] != '/'
  {
    match RFind(p, '/')
    case Some(j) => j + 1
    case None => 0
  }

  /** The final component of a path (pathlib's `name`). */
  function Name(p: string): (name: string)
    ensures forall j :: 0 <= j < |name| ==> name[j] != '/'
  {
    p[NameStart(p)..]
  }

  /** pathlib's `suffix` of a name: from its last '.' on, provided that dot
      is neither the first nor the last character; otherwise "". */
  function Suffix(name: string): (x: string)
    ensures x == "" || (2 <= |x| < |name| && x[0] == '.' && name[|name| - |x|..] == x)
    ensures forall k :: 1 <= k < |x| ==> x[k] != '.'
    ensures forall i ::
              (0 < i < |name| - 1 && name[i] == '.' && (forall k :: i < k < |name| ==> name[k] != '.'))
              ==> x == name[i..]
  {
    match RFind(name, '.')
    case Some(i) => if 0 < i < |name| - 1 then name[i..] else ""
    case None => ""
  }

  const CsvSuffix: string := ".csv"

  /** `path.with_suffix('.csv')`: None where pathlib raises ValueError
      because the path has an empty name. */
  function WithCsvSuffix(p: string): Option<string> {
    var name := Name(p);
    if |name| == 0 then None
    else Some(p[..|p| - |Suffix(name)|] + CsvSuffix)
  }

  /** A path that ends in a '/'-free name after a directory part that is
      empty or ends in '/' has its name start right after that part. */
  lemma NameStartOf(dir: string, name: string)
    requires |dir| == 0 || dir[|dir| - 1] == '/'
    requires forall j :: 0 <= j < |name| ==> name[j] != '/'
    ensures NameStart(dir + name) == |dir|
  {
    var p := dir + name;
    forall j | |dir| <= j < |p| ensures p[j] != '/' {
      assert p[j] == name[j - |dir|];
    }
    if |dir| > 0 {
      assert p[|dir| - 1] == '/';
    }
  }

  /** A non-empty stem followed by a dot and dot-free text has that dot and
      text as its suffix. */
  lemma SuffixOfExtension(stem: string, ext: string)
    requires |stem| > 0 && |ext| >= 2 && ext[0] == '.'
    requires forall k :: 1 <= k < |ext| ==> ext[k] != '.'
    ensures Suffix(stem + ext) == ext
  {
    var name := stem + ext;
    assert name[|stem|] == '.';
    forall k | |stem| < k < |name| ensures name[k] != '.' {
      assert name[k] == ext[k - |stem|];
    }
    assert RFind(name, '.') == Some(|stem|);
    assert name[|stem|..] == ext;
  }

  /** The suffix of a non-empty stem followed by ".csv" is ".csv". */
  lemma SuffixOfCsvName(stem: string)
    requires |stem| > 0
    ensures Suffix(stem + CsvSuffix) == CsvSuffix
  {
    SuffixOfExtension(stem, CsvSuffix);
  }

  /** The default output path keeps the input's directory part and the name
      up to its suffix, and has suffix ".csv"; it fails exactly when the
      input's name is empty. */
  lemma {:induction false} WithCsvSuffixShape(p: string)
    ensures WithCsvSuffix(p).Some? <==> Name(p) != ""
    ensures WithCsvSuffix(p).Some? ==>
      var q := WithCsvSuffix(p).value;
      && NameStart(q) == NameStart(p)
      && q[..NameStart(q)] == p[..NameStart(p)]
      && Suffix(Name(q)) == CsvSuffix
      && Name(q) == Name(p)[..|Name(p)| - |Suffix(Name(p))|] + CsvSuffix
  {
    var name := Name(p);
    if |name| > 0 {
      var k := NameStart(p);
      var x := Suffix(name);
      var stem := name[..|name| - |x|];
      var dir := p[..k];
      var q := WithCsvSuffix(p).value;
      assert p == dir + name;
      assert p[..|p| - |x|] == dir + stem;
      assert q == dir + (stem + CsvSuffix);
      CsvNameShape(dir, stem);
    }
  }

  /** A ".csv" name built from a non-empty '/'-free stem after a directory
      part starts right after that part and has suffix ".csv". */
  lemma CsvNameShape(dir: string, stem: string)
    requires |dir| == 0 || dir[|dir| - 1] == '/'
    requires |stem| > 0 && forall j :: 0 <= j < |stem| ==> stem[j] != '/'
    ensures NameStart(dir + (stem + CsvSuffix)) == |dir|
    ensures Name(dir + (stem + CsvSuffix)) == stem + CsvSuffix
    ensures (dir + (stem + CsvSuffix))[..|dir|] == dir
    ensures Suffix(stem + CsvSuffix) == CsvSuffix
  {
    var newName := stem + CsvSuffix;
    forall j | 0 <= j < |newName| ensures newName[j] != '/' {
      if j < |stem| {
        assert newName[j] == stem[j];
      } else {
        assert newName[j] == CsvSuffix[j - |stem|];
      }
    }
    NameStartOf(dir, newName);
    assert (dir + newName)[|dir|..] == newName;
    SuffixOfCsvName(stem);
  }

  /** Replacing the suffix by ".csv" a second time changes nothing. */
  lemma WithCsvSuffixIdempotent(p: string)
    requires WithCsvSuffix(p).Some?
    ensures WithCsvSuffix(WithCsvSuffix(p).value) == WithCsvSuffix(p)
  {
    WithCsvSuffixShape(p);
    var q := WithCsvSuffix(p).value;
    assert |Name(q)| > 0;
    assert q[..|q| - |CsvSuffix|] + CsvSuffix == q;
  }

  /** A name without a suffix gets ".csv" appended. */
  lemma WithCsvSuffixAppends(p: string)
    requires Name(p) != "" && Suffix(Name(p)) == ""
    ensures WithCsvSuffix(p) == Some(p + CsvSuffix)
  {
    assert p[..|p| - 0] == p;
  }

  /** Worked case: a file name with a suffix, inside a directory. */
  lemma WithCsvSuffixReplaces()
    ensures WithCsvSuffix("logs/drive.blf") == Some("logs/drive.csv")
  {
    var p, dir, stem, ext := "logs/drive.blf", "logs/", "drive", ".blf";
    assert stem + ext == "drive.blf";
    assert p == dir + "drive.blf";
    NameStartOf(dir, stem + ext);
    assert Name(p) == stem + ext;
    SuffixOfExtension(stem, ext);
    assert p[..|p| - |ext|] + CsvSuffix == "logs/drive.csv";
  }

  /** Worked case: a bare name without a suffix. */
  lemma WithCsvSuffixOfBareName()
    ensures WithCsvSuffix("drive") == Some("drive.csv")
  {
    var p := "drive";
    NameStartOf("", p);
    assert "" + p == p;
    assert Name(p) == p;
    assert forall k :: 0 <= k < |p| ==> p[k] != '.';
    assert RFind(p, '.') == None;
    WithCsvSuffixAppends(p);
    assert p + CsvSuffix == "drive.csv";
  }

  /** Worked case: the root directory has an empty name, so pathlib raises
      ValueError instead of producing a default path. */
  lemma WithCsvSuffixOfRoot()
    ensures WithCsvSuffix("/") == None
  {
  }

  // ---------------------------------------------------------------------------
  // The entry point
  // ---------------------------------------------------------------------------

  /** The parsed command line: input_file, the optional output_file and
      --include-errors. */
  datatype Args = Args(inputFile: string, outputFile: Option<string>, includeErrors: bool)

  /** The arguments the entry point passes to the conversion. */
  datatype Invocation = Invocation(blfFilePath: string, csvFilePath: string, includeErrorFrames: bool)

  /** The exit code, and the conversion started, if any. */
  datatype MainOutcome = MainOutcome(exitCode: int, conversion: Option<Invocation>)

  /** The explicit output path when one was given and is not empty (an empty
      string counts as not given), otherwise the default one. */
  function OutputPath(args: Args): Option<string> {
    if args.outputFile.Some? && args.outputFile.value != "" then args.outputFile
    else WithCsvSuffix(args.inputFile)
  }

  /** Which path the conversion writes to. */
  lemma OutputPathChoice(args: Args)
    ensures args.outputFile.Some? && args.outputFile.value != "" ==> OutputPath(args) == args.outputFile
    ensures (args.outputFile.None? || args.outputFile.value == "") && Name(args.inputFile) != "" ==>
      && OutputPath(args).Some?
      && Suffix(Name(OutputPath(args).value)) == CsvSuffix
      && OutputPath(args).value[..NameStart(OutputPath(args).value)]
         == args.inputFile[..NameStart(args.inputFile)]
      && Name(OutputPath(args).value)
         == Name(args.inputFile)[..|Name(args.inputFile)| - |Suffix(Name(args.inputFile))|] + CsvSuffix
    ensures OutputPath(args).None? <==>
      (args.outputFile.None? || args.outputFile.value == "") && Name(args.inputFile) == ""
  {
    WithCsvSuffixShape(args.inputFile);
  }

  /** The entry point after argument parsing. `inputExists` is the answer of
      the file-system check and `convert` the conversion's success report. */
  function RunMain(args: Args, inputExists: bool, convert: Invocation -> bool): (r: MainOutcome)
    ensures r.exitCode == 0 || r.exitCode == 1
    ensures !inputExists ==> r == MainOutcome(1, None)
    ensures r.conversion.Some? ==>
      && inputExists
      && OutputPath(args) == Some(r.conversion.value.csvFilePath)
      && r.conversion.value.blfFilePath == args.inputFile
      && r.conversion.value.includeErrorFrames == args.includeErrors
      && (r.exitCode == 0 <==> convert(r.conversion.value))
    ensures inputExists && OutputPath(args).Some? ==> r.conversion.Some?
    ensures r.exitCode == 0 ==> r.conversion.Some?
  {
    if !inputExists then MainOutcome(1, None)
    else match OutputPath(args)
      case None => MainOutcome(1, None)
      case Some(output) =>
        var invocation := Invocation(args.inputFile, output, args.includeErrors);
        MainOutcome(if convert(invocation) then 0 else 1, Some(invocation))
  }
}
