/**
 * Locating a post's attachment on disk: a list of candidate paths is tried
 * in order and the first that names a regular file wins.
 *
 * The file system is a parameter: which paths name an existing regular file
 * (`File.exists() && File.isFile()`), what File.getAbsolutePath() makes of a
 * path, and the platform's File.separator.
 */
module FileLookup {
  import opened JavaLang

  datatype FileSystem = FileSystem(
    isFile: string -> bool,
    absolute: string -> string,
    separator: string)

  /** The position of the first candidate naming a regular file, or the
      number of candidates when none does. */
  function FirstFileIndex(candidates: seq<string>, fs: FileSystem): (i: nat)
    ensures i <= |candidates|
    ensures forall j :: 0 <= j < i ==> !fs.isFile(candidates[j])
    ensures i < |candidates| ==> fs.isFile(candidates[i])
  {
    if candidates == [] then 0
    else if fs.isFile(candidates[0]) then 0
    else 1 + FirstFileIndex(candidates[1..], fs)
  }

  /** The absolute path of the first candidate naming a regular file, or
      null when none does. */
  function Lookup(candidates: seq<string>, fs: FileSystem): (r: Option<string>)
    ensures r.None? <==> forall j :: 0 <= j < |candidates| ==> !fs.isFile(candidates[j])
    ensures r.Some? ==> exists i :: 0 <= i < |candidates| && fs.isFile(candidates[i]) && r.value == fs.absolute(candidates[i])
    ensures r.Some? ==> exists i :: (0 <= i < |candidates| && fs.isFile(candidates[i])
              && (forall j :: 0 <= j < i ==> !fs.isFile(candidates[j]))
              && r.value == fs.absolute(candidates[i]))
  {
    var i := FirstFileIndex(candidates, fs);
    if i < |candidates| then Some(fs.absolute(candidates[i])) else None
  }

  /** The loop over the candidates, trying each in turn. */
  method FirstExisting(candidates: seq<string>, fs: FileSystem) returns (r: Option<string>)
    ensures r == Lookup(candidates, fs)
  {
    for k := 0 to |candidates|
      invariant forall j :: 0 <= j < k ==> !fs.isFile(candidates[j])
    {
      if fs.isFile(candidates[k]) {
        return Some(fs.absolute(candidates[k]));
      }
    }
    return None;
  }

  /** `s` ends with `suffix`. */
  predicate EndsWith(s: string, suffix: string) {
    |suffix| <= |s| && s[|s| - |suffix|..] == suffix
  }

  lemma EndsWithAppend(prefix: string, suffix: string)
    ensures EndsWith(prefix + suffix, suffix)
  {
    assert (prefix + suffix)[|prefix|..] == suffix;
  }
}
