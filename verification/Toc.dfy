/** Entries of a table of contents (TOC): destination, source, typecode. */
module Toc {
  import opened Paths

  datatype Typecode = DATA | BINARY | EXTENSION | EXECUTABLE | PKG | SYMLINK | DEPENDENCY | OPTION | OTHER(code: string)

  /** For a SYMLINK entry `src` is the text of the link, relative to the directory of `dest`. */
  datatype Entry = Entry(dest: Path, src: Path, typecode: Typecode)

  predicate DistinctDests(toc: seq<Entry>) {
    forall i, j :: 0 <= i < j < |toc| ==> toc[i].dest != toc[j].dest
  }
}
