/** Lists of dictionary tokens, as the overwrite and insert stages take them. */
module TokenLists {
  import opened DetRuns

  const MAX_DICT_FILE: nat := 128
  const USE_AUTO_EXTRAS: nat := 50
  const MAX_AUTO_EXTRAS: nat := 500

  ghost predicate Tokens(ts: seq<Buf>) {
    forall j :: 0 <= j < |ts| ==> 0 < |ts[j]| <= MAX_DICT_FILE
  }

  ghost predicate SortedBySize(ts: seq<Buf>) {
    forall i, j :: 0 <= i < j < |ts| ==> |ts[i]| <= |ts[j]|
  }

  /** The automatically found tokens that are used: the first few of the list. */
  function UsedAuto(ts: seq<Buf>): (r: seq<Buf>)
    ensures Tokens(ts) ==> Tokens(r)
    ensures r <= ts && |r| == if |ts| < 50 then |ts| else 50
  {
    if |ts| <= USE_AUTO_EXTRAS then ts else ts[..USE_AUTO_EXTRAS]
  }
}
