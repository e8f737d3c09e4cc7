/** The records the walkers and the validation work on (src/models/platform.rs, src/models/build.rs). */
module Platforms {
  import opened Text

  /** A supported development platform: its name, its build-artifact folder names, and the files and extensions that mark it. */
  datatype Platform = Platform(name: string, folders: seq<string>, associated: seq<string>)

  /** A build-artifact folder found for a platform: the platform's name and the folder's path. */
  datatype BuildArtifacts = BuildArtifacts(name: string, folder: string)

  /** The position of the last '.' in `s`, or -1 when there is none. */
  function LastDot(s: string): (i: int)
    ensures -1 <= i < |s|
    ensures i >= 0 ==> s[i] == '.'
    ensures forall j :: i < j < |s| && 0 <= j ==> s[j] != '.'
  {
    if s == [] then -1
    else if s[|s| - 1] == '.' then |s| - 1
    else LastDot(s[..|s| - 1])
  }

  /** The file name has an extension: it has a dot after its first character and is not "..". */
  predicate HasExtension(name: string)
  {
    name != ".." && exists i :: 0 < i < |name| && name[i] == '.'
  }

  /** A name has an extension exactly when its last dot comes after its first character. */
  lemma HasExtensionLastDot(name: string)
    ensures HasExtension(name) <==> name != ".." && LastDot(name) > 0
  {
    var d := LastDot(name);
    if name != ".." && exists i :: 0 < i < |name| && name[i] == '.' {
      var i :| 0 < i < |name| && name[i] == '.';
      assert d >= i;
    }
  }

  /**
   * `Path::extension` of an entry, with "no extension" read as the empty string,
   * which is what the walker substitutes for it: the text after the last dot,
   * unless that dot is the first character or the name is "..".
   */
  function Extension(name: string): (r: string)
    ensures '.' !in r
    ensures !HasExtension(name) ==> r == ""
    ensures HasExtension(name) ==> |r| + 1 < |name| && name[|name| - |r| - 1] == '.' && name[|name| - |r|..] == r
  {
    var i := LastDot(name);
    HasExtensionLastDot(name);
    if name == ".." || i <= 0 then ""
    else name[i + 1..]
  }

  /** The extension of a manifest name is the text after its dot. */
  lemma ExtensionOfManifest()
    ensures Extension("Cargo.toml") == "toml"
  {
    var name := "Cargo.toml";
    assert name[5] == '.';
    var r := Extension(name);
    assert |r| == 4 by {
      assert name[|name| - |r| - 1] == '.';
      forall j | 0 <= j < |name| && j != 5 ensures name[j] != '.' {}
    }
  }

  /** A name whose only dot is its first character has no extension. */
  lemma ExtensionOfDotFile()
    ensures Extension(".gitignore") == ""
  {
    assert !HasExtension(".gitignore") by {
      forall i | 0 < i < |".gitignore"| ensures ".gitignore"[i] != '.' {}
    }
  }
}
