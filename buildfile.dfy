/**
 * How CBuildFromFile picks a reader for a file: the extension of the file's
 * name, upper-cased, selects one of the FileTypeFactories (XLS, XLSX, CSV).
 * A file is a path plus whether it exists; the readers themselves are not
 * part of this model.
 */
module FileDispatch {
  import opened Base

  /** The file-type factories of CBuildFromFile.FileTypeFactories. */
  datatype FileType = XLS | XLSX | CSV

  /** What the constructor knows about a java.io.File: its path and whether File.exists() holds. */
  datatype FileRef = FileRef(path: string, present: bool)

  /** String.lastIndexOf(char): the last position holding c, or -1. */
  function LastIndexOf(s: string, c: char): (r: int)
    ensures -1 <= r < |s|
    ensures r == -1 <==> c !in s
    ensures r >= 0 ==> s[r] == c && c !in s[r + 1..]
  {
    if |s| == 0 then -1
    else if s[|s| - 1] == c then |s| - 1
    else LastIndexOf(s[..|s| - 1], c)
  }

  /** File.getName(): the last component of a '/'-separated path. */
  function FileName(path: string): (r: string)
    ensures '/' !in r
    ensures |r| <= |path| && r == path[|path| - |r|..]
    ensures |r| == |path| || path[|path| - |r| - 1] == '/'
  {
    path[LastIndexOf(path, '/') + 1..]
  }

  /**
   * CBuildFromFile.getExtension: the text after the last '.' of the file name,
   * or None when the name has no '.', when its last '.' is its first
   * character, or when it ends with '.'.
   */
  function GetExtension(path: string): (r: Option<string>)
    ensures r.Some? ==> r.value != [] && '.' !in r.value && '/' !in r.value
    ensures r.Some? ==> exists stem :: stem != [] && FileName(path) == stem + "." + r.value
  {
    var fileName := FileName(path);
    var indexOfDot := LastIndexOf(fileName, '.');
    if 0 < indexOfDot < |fileName| - 1 then
      var ext := fileName[indexOfDot + 1..];
      assert fileName == fileName[..indexOfDot] + "." + ext;
      Some(ext)
    else
      None
  }

  /** No extension exactly when the name has no '.', its only '.' leads, or it ends with '.'. */
  lemma GetExtensionNone(path: string)
    ensures GetExtension(path).None? <==>
      var name := FileName(path);
      '.' !in name || (name[0] == '.' && '.' !in name[1..]) || name[|name| - 1] == '.'
  {
    var name := FileName(path);
    var k := LastIndexOf(name, '.');
    if k == 0 {
      assert name[1..] == name[k + 1..];
    } else if k > 0 && name[0] == '.' {
      assert name[k] in name[1..];
    }
  }

  /** FileTypeFactories.valueOf: the constant whose name is exactly the text. */
  function ValueOf(name: string): (r: Option<FileType>)
    ensures r == Some(XLS) <==> name == "XLS"
    ensures r == Some(XLSX) <==> name == "XLSX"
    ensures r == Some(CSV) <==> name == "CSV"
  {
    if name == "XLS" then Some(XLS)
    else if name == "XLSX" then Some(XLSX)
    else if name == "CSV" then Some(CSV)
    else None
  }

  /**
   * The checks of the main CBuildFromFile constructor, in order: the file
   * must exist, its name must have an extension, and the upper-cased
   * extension must name a factory.
   */
  function SelectFactory(file: FileRef): (r: Result<FileType>)
    ensures !file.present ==> r == Err(FileNotFound(file.path))
    ensures file.present && GetExtension(file.path).None? ==> r == Err(UnsupportedFileType(file.path))
    ensures r.Ok? <==> file.present && GetExtension(file.path).Some? &&
                       ValueOf(ToUpper(GetExtension(file.path).value)).Some?
    ensures (file.present && GetExtension(file.path).Some? && ValueOf(ToUpper(GetExtension(file.path).value)).None?) ==>
            r == Err(UnsupportedFileType(file.path))
    ensures r.Ok? ==> Some(r.value) == ValueOf(ToUpper(GetExtension(file.path).value))
  {
    if !file.present then Err(FileNotFound(file.path))
    else
      match GetExtension(file.path)
      case None => Err(UnsupportedFileType(file.path))
      case Some(extension) =>
        match ValueOf(ToUpper(extension))
        case None => Err(UnsupportedFileType(file.path))
        case Some(fileType) => Ok(fileType)
  }

  /** The extension is matched without regard to (ASCII) case. */
  lemma SelectFactoryIgnoresCase(stem: string, extension: string)
    requires stem != [] && '.' !in stem && '/' !in stem
    requires '.' !in extension && '/' !in extension && extension != []
    ensures SelectFactory(FileRef(stem + "." + extension, true)).Ok? <==>
            SelectFactory(FileRef(stem + "." + ToUpper(extension), true)).Ok?
    ensures SelectFactory(FileRef(stem + "." + extension, true)).Ok? ==>
            SelectFactory(FileRef(stem + "." + extension, true)) ==
            SelectFactory(FileRef(stem + "." + ToUpper(extension), true))
  {
    var upper := ToUpper(extension);
    ExtensionOf(stem, extension);
    UpperKeeps(extension, '.');
    UpperKeeps(extension, '/');
    ExtensionOf(stem, upper);
    ToUpperIdempotent(extension);
    assert ToUpper(upper) == upper;
    var p1 := stem + "." + extension;
    var p2 := stem + "." + upper;
    assert GetExtension(p1) == Some(extension);
    assert GetExtension(p2) == Some(upper);
  }

  /** Upper-casing neither adds nor removes a character that is not a letter. */
  lemma UpperKeeps(s: string, c: char)
    requires !('a' <= c <= 'z') && !('A' <= c <= 'Z')
    ensures c in ToUpper(s) <==> c in s
  {
    if c in s {
      var i :| 0 <= i < |s| && s[i] == c;
      assert ToUpper(s)[i] == c;
    }
    if c in ToUpper(s) {
      var i :| 0 <= i < |s| && ToUpper(s)[i] == c;
      assert s[i] == c;
    }
  }

  lemma NameWithoutSlash(path: string)
    requires '/' !in path
    ensures FileName(path) == path
  {
  }

  /** The extension of stem + "." + ext, for a stem and an extension without dots. */
  lemma ExtensionOf(stem: string, extension: string)
    requires stem != [] && '.' !in stem && '/' !in stem
    requires '.' !in extension && '/' !in extension && extension != []
    ensures GetExtension(stem + "." + extension) == Some(extension)
  {
    var name := stem + "." + extension;
    NameWithoutSlash(name);
    assert name[|stem|] == '.';
    assert name[|stem| + 1..] == extension;
    assert name[..|stem|] == stem;
    LastIndexOfSplit(name, |stem|, '.');
  }

  /** The last c is at position i when s[i] == c and no c follows it. */
  lemma LastIndexOfSplit(s: string, i: nat, c: char)
    requires i < |s| && s[i] == c && c !in s[i + 1..]
    ensures LastIndexOf(s, c) == i
  {
  }

  lemma ToUpperIdempotent(s: string)
    ensures ToUpper(ToUpper(s)) == ToUpper(s)
  {
  }

  /** A hidden file's name, a dot and then no other dot, has no extension. */
  lemma HiddenFileHasNoExtension(stem: string)
    requires '.' !in stem && '/' !in stem
    ensures GetExtension("." + stem) == None
  {
    var name := "." + stem;
    NameWithoutSlash(name);
    assert name[1..] == stem;
    LastIndexOfSplit(name, 0, '.');
  }

  /** A name ending in a dot has no extension. */
  lemma TrailingDotHasNoExtension()
    ensures GetExtension("report.") == None
  {
    NameWithoutSlash("report.");
    LastIndexOfSplit("report.", 6, '.');
  }

  lemma CsvExtension()
    ensures GetExtension("data.csv") == Some("csv")
  {
    var name := "data.csv";
    assert name == "data" + "." + "csv";
    ExtensionOf("data", "csv");
  }

  /** A missing file is reported as missing whatever its name. */
  lemma MissingFileFirst(path: string)
    ensures SelectFactory(FileRef(path, false)) == Err(FileNotFound(path))
  {
  }
}
