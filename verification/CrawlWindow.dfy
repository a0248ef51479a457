/** The window one run of a crawl takes: at most ten entries from the cursor on
    (src/scheduler-job/template/pair.template.ts:535-541, and the same lines of the interaction and NFT jobs). */
module CrawlWindow {
  const CHUNK_SIZE: nat := 10

  function WindowEnd(s: nat, length: nat): nat { if length > s + CHUNK_SIZE then s + CHUNK_SIZE else length }

  /** The window is not empty when there is something beyond the cursor, holds at most ten entries, and stops short of
      the end only when it holds ten. */
  lemma WindowExactly(s: nat, length: nat)
    requires s < length
    ensures s < WindowEnd(s, length) <= length && WindowEnd(s, length) <= s + 10
    ensures WindowEnd(s, length) < length ==> WindowEnd(s, length) == s + 10
  {
  }
}
