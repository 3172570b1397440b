/** What a query page says: whether more follow, and whether it is in order. */
module TrPages {
  import opened Common
  import opened TrCapture

  /** More pages follow one whose flag is a 2 with nothing but space around. */
  lemma MoreExactlyWhen(page: Page)
    ensures More(page) <==> IsWithSpaceAround(page.prevNext, "2")
  {
    StripsToExactlyWhen(page.prevNext, "2");
  }

  /** A page is faultless when its request was accepted, it came, and its error code
      is nothing but space or a 0 with space around. */
  lemma PageIsFaultlessExactlyWhen(code: int, flag: int, page: Option<Page>)
    ensures PageErrors(code, flag, page) == [] <==>
            code >= 0 && page.Some? && (AllSpace(page.value.errorCode) || IsWithSpaceAround(page.value.errorCode, "0"))
    ensures |PageErrors(code, flag, page)| <= 1
    ensures RequestFailed(code) in PageErrors(code, flag, page) <==> code < 0
    ensures TimedOut(flag) in PageErrors(code, flag, page) <==> code >= 0 && page.None?
  {
    if page.Some? {
      StripsToExactlyWhen(page.value.errorCode, "0");
      StripsToNothingExactlyWhen(page.value.errorCode);
    }
  }
}
