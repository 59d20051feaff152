/**
 * DnaSassEngine: the file classification done before processing, the
 * output record added for every Sass file, the outcome of generating
 * CSS as seen from the engine, and GetIncludeTag as the loop that builds
 * the include list.
 */
module SassEngine {
  import opened Wrappers
  import opened Strings
  import opened Paths
  import opened ImportStatement
  import opened ImportList
  import opened IncludeTag

  const EngineName: string := "Sass"
  const CssExtension: string := ".css"

  /** The Sass cache folder, as it appears in a path with `/` separators. */
  const SassCacheFolder: string := "/" + SassCacheName + "/"
  /** The same folder written with Windows separators. */
  const WindowsSassCacheFolder: string := "\\" + SassCacheName + "\\"
  const SassCacheName: string := ".sass-cache"
  const SassCacheSkipMessage: string := "Ignoring .sass-cache folder"

  const SourceMapExtension: string := ".map"
  const UnexpectedErrorPrefix: string := "Unexpected error generating Scss output. "
  const SourceMapErrorPrefix: string := "Failed to write Css Source Map file "

  // ---------------------------------------------------------------------
  // Classification

  /** The Sass rule: a file whose name starts with `_` is a partial. */
  predicate IsPartialPath(fullPath: string) {
    StartsWith(FileName(fullPath), PartialPrefix)
  }

  /** The path, with every `\` read as `/`, runs through a `.sass-cache` folder. */
  predicate InSassCache(fullPath: string) {
    Contains(Replace(fullPath, '\\', '/'), SassCacheFolder)
  }

  /** Only the file name decides: `dir/name` is a partial exactly when `name` starts with `_`. */
  lemma PartialByFileName(dir: string, name: string)
    requires Separator !in name
    ensures IsPartialPath(dir + [Separator] + name) <==> StartsWith(name, PartialPrefix)
  {
    FileNameAfterSeparator(dir + [Separator], name);
  }

  /** `_base.scss` is a partial, wherever it is. */
  lemma UnderscoredFileIsPartial(dir: string)
    ensures IsPartialPath(dir + "/_base.scss")
  {
    var name := "_base.scss";
    assert dir + "/_base.scss" == dir + [Separator] + name;
    PartialByFileName(dir, name);
  }

  /** `base.scss` is not a partial, wherever it is. */
  lemma PlainFileIsNotPartial(dir: string)
    ensures !IsPartialPath(dir + "/base.scss")
  {
    var name := "base.scss";
    assert dir + "/base.scss" == dir + [Separator] + name;
    PartialByFileName(dir, name);
    assert name[0] != '_';
  }

  lemma CacheNamePlain()
    ensures '\\' !in SassCacheName && SassCacheName[0] == '.'
  {
    assert SassCacheName == ".sass-cache";
  }

  /** Reading `\` as `/` turns the Windows spelling of a folder into the `/` one. */
  lemma ReplaceAroundName(name: string)
    requires '\\' !in name
    ensures Replace("\\" + name + "\\", '\\', '/') == "/" + name + "/"
  {
    var s := "\\" + name + "\\";
    var r := Replace(s, '\\', '/');
    assert |r| == |"/" + name + "/"|;
    forall k | 0 <= k < |r| ensures r[k] == ("/" + name + "/")[k] {
      if 0 < k < |r| - 1 {
        assert s[k] == name[k - 1];
      }
    }
  }

  /** Reading `\` as `/` in a path that has `folder` in the middle leaves `folder` in place when that reads as the cache folder. */
  lemma FolderDetected(before: string, folder: string, after: string)
    requires Replace(folder, '\\', '/') == SassCacheFolder
    ensures InSassCache(before + folder + after)
  {
    var r := Replace(before + folder + after, '\\', '/');
    assert forall k :: 0 <= k < |folder| ==> r[|before| + k] == SassCacheFolder[k];
    assert r[|before|..|before| + |SassCacheFolder|] == SassCacheFolder;
    assert OccursAt(r, SassCacheFolder, |before|);
  }

  /** A path that runs through `/.sass-cache/` is in the cache, whatever surrounds it. */
  lemma CacheFolderDetected(before: string, after: string)
    ensures InSassCache(before + SassCacheFolder + after)
  {
    CacheNamePlain();
    assert '\\' !in SassCacheFolder;
    ReplaceAbsent(SassCacheFolder, '\\', '/');
    FolderDetected(before, SassCacheFolder, after);
  }

  /** The Windows spelling `\.sass-cache\` is detected as well. */
  lemma BackslashCacheFolderDetected(before: string, after: string)
    ensures InSassCache(before + WindowsSassCacheFolder + after)
  {
    CacheNamePlain();
    ReplaceAroundName(SassCacheName);
    FolderDetected(before, WindowsSassCacheFolder, after);
  }

  /** A path with no `.` in it is never in the cache. */
  lemma NoDotNotInCache(fullPath: string)
    requires '.' !in fullPath
    ensures !InSassCache(fullPath)
  {
    var r := Replace(fullPath, '\\', '/');
    CacheNamePlain();
    assert SassCacheFolder[1] == '.';
    forall i | 0 <= i <= |r| - |SassCacheFolder| ensures !OccursAt(r, SassCacheFolder, i) {
      assert r[i + 1] == fullPath[i + 1] || r[i + 1] == '/';
    }
  }

  // ---------------------------------------------------------------------
  // Options passed to the Sass compiler

  datatype ScssOutputStyle = Nested | Expanded | Compact | Compressed

  /** The options GenerateOutput hands to the compiler. */
  datatype ScssOptions = ScssOptions(inputFile: string, outputFile: string,
                                     outputStyle: ScssOutputStyle, generateSourceMap: bool)

  /** What one compiler call gives back. */
  datatype ConversionOutcome =
    | Converted(css: string, sourceMap: string)
    | ConversionFailed(message: string)

  /** The options for compiling `inputFile` into `outputFile` under the local configuration. */
  function OptionsFor(inputFile: string, outputFile: string, style: Option<ScssOutputStyle>,
                      sourceMaps: Option<bool>): (o: ScssOptions)
    ensures o.inputFile == inputFile && o.outputFile == outputFile
    ensures style.Some? ==> o.outputStyle == style.value
    ensures style.None? ==> o.outputStyle == Compact
    ensures sourceMaps.Some? ==> o.generateSourceMap == sourceMaps.value
    ensures sourceMaps.None? ==> !o.generateSourceMap
  {
    ScssOptions(inputFile, outputFile,
                if style.Some? then style.value else Compact,
                if sourceMaps.Some? then sourceMaps.value else false)
  }

  /** With nothing configured, the output is Compact and has no source map. */
  lemma DefaultOptions(inputFile: string, outputFile: string)
    ensures OptionsFor(inputFile, outputFile, None, None) == ScssOptions(inputFile, outputFile, Compact, false)
  {
  }

  /** The source map is written next to the CSS output, under the same name with `.map` added. */
  function SourceMapPath(outputPath: string): (r: string)
    ensures StartsWith(r, outputPath) && EndsWith(r, SourceMapExtension)
    ensures |r| == |outputPath| + |SourceMapExtension|
  {
    var r := outputPath + SourceMapExtension;
    assert r[..|outputPath|] == outputPath;
    assert r[|r| - |SourceMapExtension|..] == SourceMapExtension;
    r
  }

  // ---------------------------------------------------------------------
  // The records the engine fills in

  /** One output file of a processed file. */
  class FileOutputData {
    var fullPath: string
    var fileContents: string
    var compiledContents: Option<string>

    constructor(fullPath: string, fileContents: string)
      ensures this.fullPath == fullPath && this.fileContents == fileContents
      ensures compiledContents == None
    {
      this.fullPath := fullPath;
      this.fileContents := fileContents;
      compiledContents := None;
    }
  }

  /**
   * The state of one file being processed. The two Scss settings of its
   * local configuration are held here directly.
   */
  class FileProcessingData {
    var fullPath: string
    var unprocessedFileContents: string
    var isPartial: bool
    var skipMessage: Option<string>
    var error: Option<string>
    var outputPaths: seq<FileOutputData>
    var scssOutputStyle: Option<ScssOutputStyle>
    var scssGenerateSourceMaps: Option<bool>

    constructor(fullPath: string, contents: string, style: Option<ScssOutputStyle>, sourceMaps: Option<bool>)
      ensures this.fullPath == fullPath && unprocessedFileContents == contents
      ensures !isPartial && skipMessage == None && error == None && outputPaths == []
      ensures scssOutputStyle == style && scssGenerateSourceMaps == sourceMaps
    {
      this.fullPath := fullPath;
      unprocessedFileContents := contents;
      isPartial := false;
      skipMessage := None;
      error := None;
      outputPaths := [];
      scssOutputStyle := style;
      scssGenerateSourceMaps := sourceMaps;
    }
  }

  // ---------------------------------------------------------------------
  // The engine

  class DnaSassEngine {
    const engineExtensions: seq<string>
    const outputExtension: string

    var willProcessDataTags: bool
    var willProcessMainTags: bool
    var willProcessOutputTags: bool
    var willProcessVariables: bool
    var willProcessLiveVariables: bool

    /** The engine reads `.scss` files and writes `.css` files. */
    constructor()
      ensures engineExtensions == [ScssExtension] && outputExtension == CssExtension
    {
      engineExtensions := [ScssExtension];
      outputExtension := CssExtension;
    }

    /**
     * Switches off the generic tag and variable processing, marks the file
     * partial by the Sass rule, and gives files in the Sass cache a skip
     * message; any other skip message is left as it was.
     */
    method PreProcessFile(data: FileProcessingData)
      modifies this, data`isPartial, data`skipMessage
      ensures !willProcessDataTags && !willProcessMainTags && !willProcessOutputTags
      ensures !willProcessVariables && !willProcessLiveVariables
      ensures data.isPartial <==> IsPartialPath(data.fullPath)
      ensures data.skipMessage == if InSassCache(data.fullPath) then Some(SassCacheSkipMessage)
                                  else old(data.skipMessage)
    {
      willProcessDataTags := false;
      willProcessMainTags := false;
      willProcessOutputTags := false;
      willProcessVariables := false;
      willProcessLiveVariables := false;

      data.isPartial := StartsWith(FileName(data.fullPath), PartialPrefix);

      if Contains(Replace(data.fullPath, '\\', '/'), SassCacheFolder) {
        data.skipMessage := Some(SassCacheSkipMessage);
      }
    }

    /**
     * Adds one output, at `defaultOutputPath` (what GetDefaultOutputPath
     * gives for this file), carrying the unprocessed contents; the outputs
     * already there are kept as they are.
     */
    method PostProcessOutputPaths(data: FileProcessingData, defaultOutputPath: string)
      modifies data`outputPaths
      ensures |data.outputPaths| == |old(data.outputPaths)| + 1
      ensures data.outputPaths[..|old(data.outputPaths)|] == old(data.outputPaths)
      ensures var added := data.outputPaths[|data.outputPaths| - 1];
              fresh(added) && added.fullPath == defaultOutputPath
              && added.fileContents == data.unprocessedFileContents && added.compiledContents == None
    {
      var output := new FileOutputData(defaultOutputPath, data.unprocessedFileContents);
      data.outputPaths := data.outputPaths + [output];
    }

    /**
     * The outcome of compiling one output. `convert` stands for the Sass
     * compiler and `save` for writing a file (contents, path), giving the
     * message of the failure if it fails. A failed compilation leaves the
     * output as it was and records the error; otherwise the CSS is stored
     * and, when source maps are switched on, the map is written next to it,
     * a failure to write it being recorded as the error.
     */
    method GenerateOutput(data: FileProcessingData, output: FileOutputData,
                          convert: (string, ScssOptions) -> ConversionOutcome,
                          save: (string, string) -> Option<string>)
      modifies output`compiledContents, data`error
      ensures var options := OptionsFor(data.fullPath, output.fullPath, data.scssOutputStyle, data.scssGenerateSourceMaps);
              match convert(output.fileContents, options)
              case ConversionFailed(message) =>
                output.compiledContents == old(output.compiledContents)
                && data.error == Some(UnexpectedErrorPrefix + message)
              case Converted(css, sourceMap) =>
                var mapPath := SourceMapPath(output.fullPath);
                output.compiledContents == Some(css)
                && data.error == if data.scssGenerateSourceMaps == Some(true) && save(sourceMap, mapPath).Some?
                                 then Some(SourceMapErrorPrefix + mapPath + ". " + save(sourceMap, mapPath).value)
                                 else old(data.error)
    {
      var options := OptionsFor(data.fullPath, output.fullPath, data.scssOutputStyle, data.scssGenerateSourceMaps);
      var result := convert(output.fileContents, options);
      if result.ConversionFailed? {
        data.error := Some(UnexpectedErrorPrefix + result.message);
        return;
      }
      output.compiledContents := Some(result.css);
      if data.scssGenerateSourceMaps == Some(true) {
        var mapPath := SourceMapPath(output.fullPath);
        var failure := save(result.sourceMap, mapPath);
        if failure.Some? {
          data.error := Some(SourceMapErrorPrefix + mapPath + ". " + failure.value);
        }
      }
    }

    /**
     * The path one quoted name includes: `.scss` appended unless already
     * there, resolved against the directory of `filePath`, then replaced
     * by its underscored sibling when the name has no `_` and the sibling
     * exists.
     */
    method ResolveInclude(filePath: string, token: string, existing: set<string>,
                          resolve: (string, string) -> string)
      returns (includePath: string)
      ensures includePath == IncludePath(filePath, token, existing, resolve)
    {
      includePath := token;

      if !EndsWith(includePath, ScssExtension) {
        includePath := includePath + ScssExtension;
      }
      assert includePath == WithScssExtension(token);

      includePath := resolve(DirName(filePath), includePath);
      ghost var resolved := includePath;

      if !StartsWith(FileName(includePath), PartialPrefix) {
        var underscoredPath := Combine(DirName(includePath), PartialPrefix + FileName(includePath));
        if underscoredPath in existing {
          includePath := underscoredPath;
        }
      }
      OverrideStep(resolved, existing);
    }

    /**
     * Finds the first `@import ... ;` line of `fileContents` and, when its
     * trimmed body is a quoted list, the file each quoted name includes,
     * for a file at `filePath`. `existing` stands for the files that exist
     * and `resolve` for resolving a path relative to a directory.
     */
    method GetIncludeTag(filePath: string, fileContents: string, existing: set<string>,
                         resolve: (string, string) -> string)
      returns (found: bool, importMatch: Option<StatementMatch>, includePaths: seq<string>)
      ensures importMatch == FindImport(fileContents)
      ensures IncludeResult(found, includePaths) == IncludeTag.GetIncludeTag(filePath, fileContents, existing, resolve)
    {
      includePaths := [];

      importMatch := FindImport(fileContents);
      if importMatch.None? {
        return false, importMatch, includePaths;
      }

      var innerImport := Trim(Body(fileContents, importMatch.value));

      var normalizedInnerImport := Replace(innerImport, '\'', '"');
      if !(StartsWith(normalizedInnerImport, "\"") && EndsWith(normalizedInnerImport, "\"")) {
        return false, importMatch, includePaths;
      }

      var innerMatches := Tokens(innerImport);
      var i := 0;
      while i < |innerMatches|
        invariant 0 <= i <= |innerMatches|
        invariant |includePaths| == i
        invariant includePaths == IncludePaths(filePath, innerMatches[..i], existing, resolve)
      {
        var includePath := ResolveInclude(filePath, innerMatches[i], existing, resolve);
        MapSnoc(IncludePathOf(filePath, existing, resolve), innerMatches, i);
        includePaths := includePaths + [includePath];
        i := i + 1;
      }

      assert innerMatches[..i] == innerMatches;
      return true, importMatch, includePaths;
    }
  }
}
