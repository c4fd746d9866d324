// The page size that the allocators and the page tables share.
module PageSize {
  const PAGE_SIZE: nat := 4096
}
