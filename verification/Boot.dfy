/** What the bootloader hands over: the memory map and the kernel's program headers. */
module Boot {

  datatype MemType = Usable | Reserved | AcpiReclaimable | AcpiNvs | BadMemory
                   | BootloaderReclaimable | ExecutableAndModules | Framebuffer

  datatype MemEntry = MemEntry(base: nat, length: nat, kind: MemType)

  /** A program header: PT_LOAD or not, and the PF_X and PF_W bits. */
  datatype Segment = Segment(load: bool, vaddr: nat, memsz: nat, x: bool, w: bool)
}
