/**
 * The parts of Rust's `std::path` on Unix that the backend uses, on paths
 * written as text: `PathBuf::join` and `Path::file_stem` of a directory entry.
 */
module Paths {
  import opened Wrappers
  import opened Strings

  /**
   * `base.join(name)`: an absolute `name` replaces `base`; otherwise `name`
   * is appended, with a `/` in between unless `base` is empty or already ends
   * with one.
   */
  function Join(base: string, name: string): string {
    if name != [] && name[0] == '/' then name
    else if base == [] || base[|base| - 1] == '/' then base + name
    else base + "/" + name
  }

  /** The joined path ends with `name` and, for a relative `name`, starts with `base`. */
  lemma JoinShape(base: string, name: string)
    ensures EndsWith(Join(base, name), name)
    ensures !StartsWith(name, "/") ==> StartsWith(Join(base, name), base)
  {
    var r := Join(base, name);
    assert StartsWith(name, "/") <==> name != [] && name[0] == '/';
    assert EndsWith(base, "/") <==> base != [] && base[|base| - 1] == '/';
    if !StartsWith(name, "/") {
      if base == [] || EndsWith(base, "/") {
        assert r[|r| - |name|..] == name;
        assert r[..|base|] == base;
      } else {
        assert r == base + ("/" + name);
        assert r[|r| - |name|..] == name;
        assert r[..|base|] == base;
      }
    }
  }

  /** A relative name is appended to a directory, behind a `/` unless the directory already ends in one. */
  lemma JoinRelative(base: string, name: string)
    requires name == [] || name[0] != '/'
    ensures base != [] && base[|base| - 1] == '/' ==> Join(base, name) == base + name
    ensures base != [] && base[|base| - 1] != '/' ==> Join(base, name) == base + ("/" + name)
  {
    assert base + "/" + name == base + ("/" + name);
  }

  /**
   * `Path::new(name).file_stem()` for the name of a directory entry: the text
   * before the last `.`, or the whole name when it has no `.` or only a
   * leading one; no stem for the empty name, `.` and `..`.
   */
  function FileStem(name: string): Option<string> {
    if name == [] || (|name| <= 2 && name[0] == '.' && name[|name| - 1] == '.') then None
    else match LastIndexOf(name, '.')
      case None => Some(name)
      case Some(i) => if i == 0 then Some(name) else Some(name[..i])
  }

  /** A stem is a non-empty prefix of the name, and the whole name when it has no `.`. */
  lemma FileStemShape(name: string)
    ensures FileStem(name).Some? ==> StartsWith(name, FileStem(name).value) && FileStem(name).value != []
    ensures FileStem(name).Some? && '.' !in name ==> FileStem(name).value == name
  {
  }

  /** The stem of `stem + "." + ext`, for a stem without dots, is that stem. */
  lemma FileStemOfDottedName(stem: string, ext: string)
    requires stem != [] && '.' !in stem && '.' !in ext
    ensures FileStem(stem + "." + ext) == Some(stem)
  {
    var name := stem + "." + ext;
    assert name[|stem|] == '.';
    assert name[0] == stem[0] != '.';
    var li := LastIndexOf(name, '.');
    assert li.Some?;
    assert name[..|stem|] == stem;
  }
}
