/** The catalog records the search code reads: folders (authors) owning file
    groups, each group holding one entry per physical file. Only the fields
    the query pipeline touches are modelled. */
module Catalog {
  import opened Wrappers

  /** One physical file of a group (`f.file.FileName`). */
  datatype FileEntry = FileEntry(fileName: string)

  /** A logical document: its optional `Key`, the `FileName` results are
      sorted by, the `Hierarchy` path segments and its physical `Files`. */
  datatype FileGroup = FileGroup(
    key: Option<string>,
    fileName: string,
    hierarchy: seq<string>,
    entries: seq<FileEntry>)

  /** An author folder: its optional `Key` and its `Files`. */
  datatype Folder = Folder(key: Option<string>, files: seq<FileGroup>)
}
