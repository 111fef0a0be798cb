/** What a parsed patch consists of. */
module Patch {
  import opened Results

  datatype Chunk = Chunk(
    changeContext: Option<string>,
    oldLines: seq<string>,
    newLines: seq<string>,
    isEndOfFile: bool)

  datatype Hunk =
    | AddFile(path: string, contents: string)
    | DeleteFile(path: string)
    | UpdateFile(path: string, movePath: Option<string>, chunks: seq<Chunk>)
}
