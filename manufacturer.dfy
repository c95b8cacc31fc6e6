/**
 * `AudioFileProcessor.detectManufacturer` (backend/server.js:100-122): the
 * manufacturer of an uploaded file, guessed from its original name and from the
 * folder that holds it, against the rows of the `manufacturers` table in query order.
 */
module ManufacturerMatch {
  import opened Wrappers
  import opened JsStrings
  import NodePath
  import opened JsArrays

  /** One row of `SELECT id, name FROM manufacturers`. */
  datatype ManufacturerRow = ManufacturerRow(id: nat, name: string)

  /** `metadata.path` as it comes out of the parsed JSON metadata. */
  datatype MetaPath =
    | NoPath                      // the key is missing (undefined)
    | PathString(text: string)
    | NonStringPath(truthy: bool) // null, a number, a boolean, an array or an object

  /** `path.dirname(filepath).split(path.sep).pop()?.toLowerCase() || ''`. */
  function ParentFolder(filepath: string): string {
    var parts := Split(NodePath.Dirname(filepath), NodePath.SEP);
    Lower(parts[|parts| - 1])
  }

  /** The parent folder of `up/folder/name` is `folder`, lower-cased. */
  lemma ParentFolderOfNestedFile(up: string, folder: string, name: string)
    requires folder != "" && NodePath.SEP !in folder
    requires name != "" && NodePath.SEP !in name
    ensures ParentFolder(up + [NodePath.SEP] + folder + [NodePath.SEP] + name) == Lower(folder)
  {
    var dir := up + [NodePath.SEP] + folder;
    assert dir[|dir| - 1] == folder[|folder| - 1];
    NodePath.DirnameOfChild(dir, name);
    assert up + [NodePath.SEP] + folder + [NodePath.SEP] + name == dir + [NodePath.SEP] + name;
    SplitLastPiece(up, folder, NodePath.SEP);
  }

  /** The parent folder of `folder/name` is `folder`, lower-cased. */
  lemma ParentFolderOfChild(folder: string, name: string)
    requires folder != "" && NodePath.SEP !in folder
    requires name != "" && NodePath.SEP !in name
    ensures ParentFolder(folder + [NodePath.SEP] + name) == Lower(folder)
  {
    assert folder[|folder| - 1] in folder;
    NodePath.DirnameOfChild(folder, name);
    SplitWithoutSeparator(folder, NodePath.SEP);
  }

  /** A file name without a slash lies in the current directory, so its parent folder is ".". */
  lemma ParentFolderOfPlainName(name: string)
    requires NodePath.SEP !in name
    ensures ParentFolder(name) == "."
  {
    NodePath.DirnameOfPlainName(name);
    SplitWithoutSeparator(".", NodePath.SEP);
    assert Lower(".") == [LowerChar('.')];
  }

  /** The first pass: the name starts with "<manufacturer> -", or the folder starts with the manufacturer. */
  predicate PrefixTier(m: ManufacturerRow, lowerFilename: string, parentFolder: string) {
    StartsWith(lowerFilename, Lower(m.name) + " -") || StartsWith(parentFolder, Lower(m.name))
  }

  /** The second pass: the manufacturer occurs anywhere in the name or in the folder. */
  predicate SubstringTier(m: ManufacturerRow, lowerFilename: string, parentFolder: string) {
    Contains(lowerFilename, Lower(m.name)) || Contains(parentFolder, Lower(m.name))
  }

  /** The first pass is the stricter one: whatever it accepts, the second accepts too. */
  lemma PrefixTierImpliesSubstringTier(m: ManufacturerRow, lowerFilename: string, parentFolder: string)
    requires PrefixTier(m, lowerFilename, parentFolder)
    ensures SubstringTier(m, lowerFilename, parentFolder)
  {
    if StartsWith(lowerFilename, Lower(m.name) + " -") {
      assert Lower(m.name) <= lowerFilename;
      StartsWithContains(lowerFilename, Lower(m.name));
    } else {
      StartsWithContains(parentFolder, Lower(m.name));
    }
  }

  /** The test of the first `find`, for the name and folder of one file. */
  function PrefixTest(lowerFilename: string, parentFolder: string): ManufacturerRow -> bool {
    m => PrefixTier(m, lowerFilename, parentFolder)
  }

  /** The test of the second `find`. */
  function SubstringTest(lowerFilename: string, parentFolder: string): ManufacturerRow -> bool {
    m => SubstringTier(m, lowerFilename, parentFolder)
  }

  /** `manufacturer?.id || null`: an id of 0 is falsy and reads as no manufacturer. */
  function IdOrNull(id: nat): Option<nat> {
    if id != 0 then Some(id) else None
  }

  /**
   * `detectManufacturer(filename, filepath)`. A `filepath` that is not a string makes
   * `path.dirname` throw, and the error is caught and turned into null.
   */
  function DetectManufacturer(rows: seq<ManufacturerRow>, filename: string, filepath: MetaPath): (r: Option<nat>)
    ensures !filepath.PathString? ==> r.None?
    ensures r.Some? ==> r.value != 0
  {
    if !filepath.PathString? then None
    else
      var lowerFilename := Lower(filename);
      var parentFolder := ParentFolder(filepath.text);
      var hit :=
        match FindIndex(rows, PrefixTest(lowerFilename, parentFolder))
        case Some(i) => Some(i)
        case None => FindIndex(rows, SubstringTest(lowerFilename, parentFolder));
      match hit
      case Some(i) => IdOrNull(rows[i].id)
      case None => None
  }

  /** The first row that passes the first pass wins, whatever the second pass would say. */
  lemma PrefixTierWins(rows: seq<ManufacturerRow>, filename: string, filepath: string, i: nat)
    requires i < |rows|
    requires PrefixTier(rows[i], Lower(filename), ParentFolder(filepath))
    requires forall j :: 0 <= j < i ==> !PrefixTier(rows[j], Lower(filename), ParentFolder(filepath))
    ensures DetectManufacturer(rows, filename, PathString(filepath)) == IdOrNull(rows[i].id)
  {
    var p := PrefixTest(Lower(filename), ParentFolder(filepath));
    var r := FindIndex(rows, p);
    assert p(rows[i]);
    assert r.Some? && r.value == i;
  }

  /** The second pass is consulted only when no row passes the first; again the first row wins. */
  lemma SubstringTierWhenNoPrefix(rows: seq<ManufacturerRow>, filename: string, filepath: string, i: nat)
    requires forall j :: 0 <= j < |rows| ==> !PrefixTier(rows[j], Lower(filename), ParentFolder(filepath))
    requires i < |rows|
    requires SubstringTier(rows[i], Lower(filename), ParentFolder(filepath))
    requires forall j :: 0 <= j < i ==> !SubstringTier(rows[j], Lower(filename), ParentFolder(filepath))
    ensures DetectManufacturer(rows, filename, PathString(filepath)) == IdOrNull(rows[i].id)
  {
    var lowerFilename, parentFolder := Lower(filename), ParentFolder(filepath);
    var p := PrefixTest(lowerFilename, parentFolder);
    var q := SubstringTest(lowerFilename, parentFolder);
    assert forall j :: 0 <= j < |rows| ==> !p(rows[j]);
    assert FindIndex(rows, p).None?;
    assert q(rows[i]);
    var r := FindIndex(rows, q);
    assert r.Some? && r.value == i;
  }

  /** No row matching in either pass gives null. */
  lemma NoMatchIsNull(rows: seq<ManufacturerRow>, filename: string, filepath: string)
    requires forall j :: 0 <= j < |rows| ==>
      !SubstringTier(rows[j], Lower(filename), ParentFolder(filepath))
    ensures DetectManufacturer(rows, filename, PathString(filepath)).None?
  {
    forall j | 0 <= j < |rows|
      ensures !PrefixTier(rows[j], Lower(filename), ParentFolder(filepath))
    {
      if PrefixTier(rows[j], Lower(filename), ParentFolder(filepath)) {
        PrefixTierImpliesSubstringTier(rows[j], Lower(filename), ParentFolder(filepath));
      }
    }
    var p := PrefixTest(Lower(filename), ParentFolder(filepath));
    var q := SubstringTest(Lower(filename), ParentFolder(filepath));
    assert forall j :: 0 <= j < |rows| ==> !p(rows[j]);
    assert forall j :: 0 <= j < |rows| ==> !q(rows[j]);
  }

  /** Lower-casing keeps prefixes. */
  lemma LowerKeepsPrefix(s: string, t: string)
    requires t <= s
    ensures Lower(t) <= Lower(s)
  {
  }

  /** The parent folder of `Kicks/name` is "kicks". */
  lemma KicksFolder(filepath: string, folder: string, name: string)
    requires folder == "Kicks" && name != "" && NodePath.SEP !in name
    requires filepath == folder + [NodePath.SEP] + name
    ensures |ParentFolder(filepath)| > 0 && ParentFolder(filepath)[0] == 'k'
  {
    NodePath.DirnameOfChild(folder, name);
    SplitWithoutSeparator(folder, NodePath.SEP);
    assert ParentFolder(filepath)[0] == LowerChar(folder[0]);
  }

  /** The example file lies in the folder "kicks". */
  lemma ExampleFolder(filename: string, filepath: string)
    requires filename == "Vengeance Sound - Kick.wav"
    requires filepath == "Kicks/" + filename
    ensures |ParentFolder(filepath)| > 0 && ParentFolder(filepath)[0] == 'k'
  {
    assert "Kicks/" == "Kicks" + [NodePath.SEP];
    assert NodePath.SEP !in filename;
    KicksFolder(filepath, "Kicks", filename);
  }

  /** The eleventh character of "Vengeance Sound - Kick.wav", lower-cased, is 's'. */
  lemma ExampleName(filename: string)
    requires filename == "Vengeance Sound - Kick.wav"
    ensures |Lower(filename)| > 10 && Lower(filename)[10] == 's'
  {
    assert filename[10] == 'S';
    assert Lower(filename)[10] == LowerChar(filename[10]);
  }

  /** A nine-letter name starting with 'V' is no prefix of a folder starting with 'k', nor followed by " -" where the name has an 's'. */
  lemma FirstRowMisses(m: ManufacturerRow, lowerFilename: string, parentFolder: string)
    requires |m.name| == 9 && m.name[0] == 'V'
    requires |lowerFilename| > 10 && lowerFilename[10] == 's'
    requires |parentFolder| > 0 && parentFolder[0] == 'k'
    ensures !PrefixTier(m, lowerFilename, parentFolder)
  {
    assert Lower(m.name)[0] == 'v';
    assert (Lower(m.name) + " -")[10] == '-';
  }

  lemma SecondRowHits(filename: string, name: string)
    requires filename == "Vengeance Sound - Kick.wav" && name == "Vengeance Sound"
    ensures StartsWith(Lower(filename), Lower(name) + " -")
  {
    var t := filename[..17];
    assert t == name + " -";
    LowerKeepsPrefix(filename, t);
    assert Lower(t) == Lower(name) + " -" by {
      forall k | 0 <= k < |Lower(t)|
        ensures Lower(t)[k] == (Lower(name) + " -")[k]
      {
        if k < 15 {
          assert t[k] == name[k];
        }
      }
    }
  }

  lemma SecondOfTwoWins(rows: seq<ManufacturerRow>, filename: string, filepath: string)
    requires |rows| == 2
    requires !PrefixTier(rows[0], Lower(filename), ParentFolder(filepath))
    requires PrefixTier(rows[1], Lower(filename), ParentFolder(filepath))
    ensures DetectManufacturer(rows, filename, PathString(filepath)) == IdOrNull(rows[1].id)
  {
    PrefixTierWins(rows, filename, filepath, 1);
  }

  lemma ExampleFirstRow(rows: seq<ManufacturerRow>, filename: string, filepath: string)
    requires rows == [ManufacturerRow(1, "Vengeance"), ManufacturerRow(2, "Vengeance Sound")]
    requires filename == "Vengeance Sound - Kick.wav"
    requires filepath == "Kicks/" + filename
    ensures !PrefixTier(rows[0], Lower(filename), ParentFolder(filepath))
  {
    ExampleFolder(filename, filepath);
    ExampleName(filename);
    FirstRowMisses(rows[0], Lower(filename), ParentFolder(filepath));
  }

  lemma ExampleSecondRow(rows: seq<ManufacturerRow>, filename: string, filepath: string)
    requires rows == [ManufacturerRow(1, "Vengeance"), ManufacturerRow(2, "Vengeance Sound")]
    requires filename == "Vengeance Sound - Kick.wav"
    ensures PrefixTier(rows[1], Lower(filename), ParentFolder(filepath))
  {
    SecondRowHits(filename, rows[1].name);
  }

  /**
   * With "Vengeance" listed before "Vengeance Sound", the file "Vengeance Sound - Kick.wav"
   * goes to "Vengeance Sound": only it is followed by " -" in the name.
   */
  lemma LongerPrefixWins(rows: seq<ManufacturerRow>, filename: string, filepath: string)
    requires rows == [ManufacturerRow(1, "Vengeance"), ManufacturerRow(2, "Vengeance Sound")]
    requires filename == "Vengeance Sound - Kick.wav"
    requires filepath == "Kicks/" + filename
    ensures DetectManufacturer(rows, filename, PathString(filepath)) == Some(2)
  {
    ExampleFirstRow(rows, filename, filepath);
    ExampleSecondRow(rows, filename, filepath);
    SecondOfTwoWins(rows, filename, filepath);
  }
}
