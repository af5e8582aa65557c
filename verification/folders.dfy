/**
  The file system as the renamer sees it: a folder holds regular files and
  named sub-folders, in the order a listing returns them, and may refuse to be
  listed. The two things the renamer cannot compute itself, whether an
  `os.rename` call succeeds and the random `uuid4` prefix used on a name
  clash, are supplied from outside.
 */
module Folders {
  import opened Text
  import opened Paths

  datatype Dir = Dir(readable: bool, files: set<string>, subdirs: seq<Entry>)

  datatype Entry = Entry(name: string, dir: Dir)

  function SubdirNames(d: Dir): set<string> {
    set k | 0 <= k < |d.subdirs| :: d.subdirs[k].name
  }

  /** What a directory listing can contain: no separator, not `.` or `..`. */
  predicate ValidName(n: string) {
    n != "" && Sep !in n && n != "." && n != ".."
  }

  /** A folder the operating system could hand out: unique, valid names throughout. */
  predicate WellFormed(d: Dir)
    decreases d
  {
    && (forall f :: f in d.files ==> ValidName(f))
    && (forall k :: 0 <= k < |d.subdirs| ==>
          ValidName(d.subdirs[k].name) && d.subdirs[k].name !in d.files && WellFormed(d.subdirs[k].dir))
    && (forall i, j :: 0 <= i < j < |d.subdirs| ==> d.subdirs[i].name != d.subdirs[j].name)
  }

  /** `entry.startswith('.')`: the name's first character is a dot; so `.` and `..` are hidden. */
  function Hidden(name: string): (r: bool)
    ensures r <==> |name| > 0 && name[0] == '.'
    ensures name == "." || name == ".." ==> r
  {
    StartsWith(name, ".")
  }

  predicate IsHexDigit(c: char) {
    '0' <= c <= '9' || 'a' <= c <= 'f'
  }

  /** `str(uuid.uuid4())[:8]`: eight lower-case hexadecimal digits. */
  type HexId = s: string | |s| == 8 && forall i :: 0 <= i < |s| ==> IsHexDigit(s[i])
    witness "00000000"

  /**
    The outside world: `renameOk(folder, old, new)` says whether the operating
    system carries out the rename; `freshId(folder, old)` is the identifier
    drawn when the planned name of `old` is taken.
   */
  datatype Env = Env(
    renameOk: (string, string, string) -> bool,
    freshId: (string, string) -> HexId)
}
