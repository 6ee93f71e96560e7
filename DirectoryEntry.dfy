/** The entries the file explorer lists, on the PC side and on the brick: a
    name, a size and a directory flag, with the type, size text and the
    compile/run capabilities derived from them. */
module DirectoryEntries {
  import opened Common

  datatype DirectoryEntry = DirectoryEntry(name: string, size: int, directory: bool)

  /** String.EndsWith with StringComparison.InvariantCultureIgnoreCase, on
      ASCII letters. */
  predicate EndsWithIgnoreCase(s: string, suffix: string)
  {
    |suffix| <= |s| && forall i :: 0 <= i < |suffix| ==> UpperChar(s[|s| - |suffix| + i]) == UpperChar(suffix[i])
  }

  /** `FileSize`: empty for a directory, the decimal size otherwise. */
  function FileSize(e: DirectoryEntry): (r: string)
    ensures e.directory <==> r == ""
    ensures !e.directory && e.size >= 0 ==> AllDigits(r) && DigitsValue(r) == e.size
  {
    if e.directory then "" else
      (if e.size >= 0 then DigitsOfNat(e.size); IntToString(e.size) else IntToString(e.size))
  }

  /** `FileType`: "Folder" for any directory, otherwise a name by extension,
      in either case, and "" for an unknown extension. */
  function FileType(e: DirectoryEntry): (r: string)
    ensures e.directory ==> r == "Folder"
    ensures r in {"Folder", "Basic", "Assembler", "Executable", "Bitmap", "Sound", ""}
  {
    if e.directory then "Folder"
    else if EndsWithIgnoreCase(e.name, ".sb") then "Basic"
    else if EndsWithIgnoreCase(e.name, ".smallbasic") then "Basic"
    else if EndsWithIgnoreCase(e.name, ".lms") then "Assembler"
    else if EndsWithIgnoreCase(e.name, ".rbf") then "Executable"
    else if EndsWithIgnoreCase(e.name, ".rgf") then "Bitmap"
    else if EndsWithIgnoreCase(e.name, ".rsf") then "Sound"
    else ""
  }

  function IsCompileable(e: DirectoryEntry): (r: bool)
    ensures r ==> !e.directory
  {
    !e.directory
    && (EndsWithIgnoreCase(e.name, ".sb") || EndsWithIgnoreCase(e.name, ".smallbasic")
        || EndsWithIgnoreCase(e.name, ".lms"))
  }

  function IsRunable(e: DirectoryEntry): (r: bool)
    ensures r ==> !e.directory
  {
    !e.directory && EndsWithIgnoreCase(e.name, ".rbf")
  }

  /** The last character of a name that ends in the suffix, upper-cased, is
      the suffix's. */
  lemma LastUpper(s: string, suffix: string)
    ensures EndsWithIgnoreCase(s, suffix) && |suffix| > 0 ==>
      UpperChar(s[|s| - 1]) == UpperChar(suffix[|suffix| - 1])
  {
    if EndsWithIgnoreCase(s, suffix) && |suffix| > 0 {
      assert UpperChar(s[|s| - |suffix| + (|suffix| - 1)]) == UpperChar(suffix[|suffix| - 1]);
    }
  }

  /** The capabilities agree with the type: an entry can be compiled exactly
      when it is a Basic or Assembler file, and run exactly when it is an
      executable. */
  lemma CapabilitiesFollowType(e: DirectoryEntry)
    ensures IsCompileable(e) <==> FileType(e) == "Basic" || FileType(e) == "Assembler"
    ensures IsRunable(e) <==> FileType(e) == "Executable"
  {
    LastUpper(e.name, ".rbf");
    LastUpper(e.name, ".sb");
    LastUpper(e.name, ".smallbasic");
    LastUpper(e.name, ".lms");
  }

  /** Character k from the end of a name that ends in the suffix, upper-cased,
      is the suffix's. */
  lemma FromEndUpper(s: string, suffix: string, k: nat)
    requires EndsWithIgnoreCase(s, suffix) && 1 <= k <= |suffix|
    ensures UpperChar(s[|s| - k]) == UpperChar(suffix[|suffix| - k])
  {
    assert UpperChar(s[|s| - |suffix| + (|suffix| - k)]) == UpperChar(suffix[|suffix| - k]);
  }

  /** The last two characters of a name, upper-cased. */
  function LastTwo(s: string): (char, char)
  {
    if |s| < 2 then ('.', '.') else (UpperChar(s[|s| - 2]), UpperChar(s[|s| - 1]))
  }

  /** A name that ends in a suffix of two or more characters ends, up to
      case, in the suffix's last two characters. */
  lemma EndsInLastTwo(s: string, suffix: string)
    requires |suffix| >= 2 && EndsWithIgnoreCase(s, suffix)
    ensures LastTwo(s) == LastTwo(suffix)
  {
    FromEndUpper(s, suffix, 1);
    FromEndUpper(s, suffix, 2);
  }

  /** No name ends in two of the six extensions, so the order of the tests
      does not matter: every type is given exactly by its extensions. */
  lemma FileTypeByExtension(e: DirectoryEntry)
    requires !e.directory
    ensures FileType(e) == "Basic" <==> EndsWithIgnoreCase(e.name, ".sb") || EndsWithIgnoreCase(e.name, ".smallbasic")
    ensures FileType(e) == "Assembler" <==> EndsWithIgnoreCase(e.name, ".lms")
    ensures FileType(e) == "Executable" <==> EndsWithIgnoreCase(e.name, ".rbf")
    ensures FileType(e) == "Bitmap" <==> EndsWithIgnoreCase(e.name, ".rgf")
    ensures FileType(e) == "Sound" <==> EndsWithIgnoreCase(e.name, ".rsf")
  {
    var n := e.name;
    assert LastTwo(".sb") == ('S', 'B') && LastTwo(".smallbasic") == ('I', 'C') && LastTwo(".lms") == ('M', 'S');
    assert LastTwo(".rbf") == ('B', 'F') && LastTwo(".rgf") == ('G', 'F') && LastTwo(".rsf") == ('S', 'F');
    if EndsWithIgnoreCase(n, ".sb") { EndsInLastTwo(n, ".sb"); }
    if EndsWithIgnoreCase(n, ".smallbasic") { EndsInLastTwo(n, ".smallbasic"); }
    if EndsWithIgnoreCase(n, ".lms") { EndsInLastTwo(n, ".lms"); }
    if EndsWithIgnoreCase(n, ".rbf") { EndsInLastTwo(n, ".rbf"); }
    if EndsWithIgnoreCase(n, ".rgf") { EndsInLastTwo(n, ".rgf"); }
    if EndsWithIgnoreCase(n, ".rsf") { EndsInLastTwo(n, ".rsf"); }
  }
}
