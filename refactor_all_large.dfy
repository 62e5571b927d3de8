/**
 * `refactor-all-large.py`: every large talk log goes through the same four
 * passes as `refactor-log-final.py`, whose definitions it repeats line for
 * line; here they are the ones of `RefactorFinal`.
 */
module RefactorAllLarge {
  import opened RefactorFinal

  /**
   * `process_file` on the text read from the backup (or the file): code
   * blocks, then projects, then long sections, then empty sections; with
   * the sizes before and after. The result is what `refactor-log-final.py`
   * produces from the same text.
   */
  method ProcessFile(content: string) returns (r: string, originalSize: nat, newSize: nat)
    ensures r == FinalRefactor(content)
    ensures originalSize == |content| && newSize == |r|
  {
    originalSize := |content|;
    var c := TruncatedBlocks(content);
    c := MergeConsecutiveSameProject(c);
    c := TruncateLongSections(c);
    c := RemoveEmptySections(c);
    r := c;
    newSize := |r|;
  }
}
