/** File paths as the analyser and the organiser handle them (`pathlib.Path`). */
module Paths {
  import opened Wrappers
  import opened Text

  /** A path: the folder it lies in and its final component, `Path.name`. */
  datatype Path = Path(dir: string, name: string)

  /** `Path.with_name(name)`: same folder, new final component. */
  function WithName(p: Path, name: string): Path { Path(p.dir, name) }

  /** Index of the last occurrence of `c` in `s` (`str.rfind`). */
  function LastIndexOf(s: string, c: char): (r: Option<nat>)
    ensures r.Some? ==> r.value < |s| && s[r.value] == c && forall k :: r.value < k < |s| ==> s[k] != c
    ensures r.None? ==> forall k :: 0 <= k < |s| ==> s[k] != c
  {
    if s == [] then None
    else if s[|s| - 1] == c then Some(|s| - 1)
    else LastIndexOf(s[..|s| - 1], c)
  }

  /** `Path.suffix`: from the last dot of the name to its end, provided that dot is neither
      the first nor the last character of the name; otherwise "". */
  function Suffix(name: string): (r: string)
    ensures r != [] ==> 2 <= |r| < |name| && r == name[|name| - |r|..] && r[0] == '.'
    ensures r != [] ==> forall k :: 1 <= k < |r| ==> r[k] != '.'
    ensures r == [] ==> forall k :: 0 < k < |name| - 1 ==> name[k] != '.' || exists j :: k < j < |name| && name[j] == '.'
  {
    match LastIndexOf(name, '.')
    case Some(i) => if 0 < i < |name| - 1 then name[i..] else []
    case None => []
  }

  /** The format key of a file: `path.suffix.lower()[1:]`. */
  function FormatOf(name: string): string
  {
    var s := LowerStr(Suffix(name));
    if s == [] then [] else s[1..]
  }
}
