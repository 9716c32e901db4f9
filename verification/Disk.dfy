/** The disk as the engine sees it: one growing array of 4096-byte pages per file. */
module Disk {
  const PAGE_SIZE: nat := 4096

  type byte = x: int | 0 <= x < 256

  type Page = p: seq<byte> | |p| == PAGE_SIZE witness seq(PAGE_SIZE, _ => 0)

  datatype Key = Key(file: int, page: nat)

  /** Files that were never opened are simply empty. */
  datatype Disk = Disk(files: map<int, seq<Page>>)

  function ZeroPage(): Page {
    seq(PAGE_SIZE, _ => 0)
  }

  function ZeroPages(n: nat): seq<Page> {
    seq(n, _ => ZeroPage())
  }

  function FilePages(d: Disk, file: int): seq<Page> {
    if file in d.files then d.files[file] else []
  }

  function NumPages(d: Disk, file: int): nat {
    |FilePages(d, file)|
  }

  /** Reading past the end of a file yields a zero page. */
  function Read(d: Disk, k: Key): Page {
    if k.page < NumPages(d, k.file) then FilePages(d, k.file)[k.page] else ZeroPage()
  }

  /** Writing past the end of a file fills the gap with zero pages. */
  function Write(d: Disk, k: Key, p: Page): (d': Disk)
    ensures forall j :: Read(d', j) == if j == k then p else Read(d, j)
    ensures forall f :: NumPages(d', f) == if f == k.file && k.page >= NumPages(d, f) then k.page + 1 else NumPages(d, f)
  {
    var pages := FilePages(d, k.file);
    if k.page < |pages| then d.(files := d.files[k.file := pages[k.page := p]])
    else
      var gap := pages + ZeroPages(k.page - |pages|);
      d.(files := d.files[k.file := gap + [p]])
  }

  /** Whatever lies past the end reads as zero bytes, also once the file has grown over it. */
  lemma BlankPastEnd(d: Disk, k: Key, file: int, w: Key, p: Page, i: nat)
    requires i < PAGE_SIZE && k.page >= NumPages(d, k.file) && k != w
    ensures Read(d, k)[i] == Read(Allocate(d, file).0, k)[i] == Read(Write(d, w, p), k)[i] == 0
  {
  }

  /** A new zero page at the end of the file: nothing any reader sees changes. */
  function Allocate(d: Disk, file: int): (r: (Disk, nat))
    ensures r.1 == NumPages(d, file)
    ensures forall j :: Read(r.0, j) == Read(d, j)
    ensures forall f :: NumPages(r.0, f) == NumPages(d, f) + if f == file then 1 else 0
  {
    var pages := FilePages(d, file);
    (d.(files := d.files[file := pages + [ZeroPage()]]), |pages|)
  }
}
