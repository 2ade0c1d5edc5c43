/** The plain records the manager works with: the run's configuration, the
    result of the page arithmetic and the process record. */
module Records {

  datatype Option<T> = None | Some(value: T)

  /** The configuration of one run (src/misc/Configuration.java). */
  datatype Configuration = Configuration(memorySize: int, pageSize: int, maxProcessSize: int)

  /** Pages a process needs and the slots it uses on its last page
      (src/data/process/ProcessAllocationInfo.java). */
  datatype ProcessAllocationInfo = ProcessAllocationInfo(numberOfPagesForProcess: nat, unfilledPageSlotsSize: nat)

  /** A registered process: its id, its size in bytes and the pages backing
      it, each page named by the index the manager gave it when it was
      created. */
  datatype Process = Process(id: int, size: nat, pageTable: seq<nat>)
  {
    /** Process.setPageTable. */
    function SetPageTable(pages: seq<nat>): (p: Process)
      ensures p.id == id && p.size == size && p.pageTable == pages
    {
      this.(pageTable := pages)
    }
  }
}
