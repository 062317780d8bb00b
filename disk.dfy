/** The part of the file system the store subscriber touches: a map from
    path to file content. */
module Disk {
  import opened Wrappers

  type FileSystem = map<string, string>

  /** The content of `path`, or "" when there is no such file. */
  function Content(fs: FileSystem, path: string): string {
    if path in fs then fs[path] else ""
  }

  /** os.OpenFile(path, O_APPEND|O_WRONLY|O_CREATE, perm): creates an
      empty file when there is none and keeps the content of one that
      exists. */
  function OpenAppend(fs: FileSystem, path: string): FileSystem {
    fs[path := Content(fs, path)]
  }

  /** File.WriteString on a handle opened with O_APPEND at `path`. */
  function Append(fs: FileSystem, path: string, text: string): FileSystem {
    fs[path := Content(fs, path) + text]
  }

  /** os.Rename(src, dst): fails when `src` does not exist; otherwise the
      content of `src` replaces whatever `dst` held and `src` is gone. */
  function Rename(fs: FileSystem, src: string, dst: string): (r: Option<FileSystem>)
    ensures r.Some? <==> src in fs
    ensures r.Some? ==> dst in r.value && r.value[dst] == fs[src]
    ensures r.Some? && src != dst ==> src !in r.value
    ensures r.Some? ==> forall p :: p != src && p != dst ==> (p in r.value <==> p in fs) && Content(r.value, p) == Content(fs, p)
  {
    if src !in fs then None else Some((fs - {src})[dst := fs[src]])
  }
}
