/** The rows of a file that is read batch by batch. */
module Batches {

  function Rows<T>(file: seq<seq<T>>): seq<T> {
    if file == [] then [] else Rows(file[..|file| - 1]) + file[|file| - 1]
  }

  lemma RowsOneMore<T>(file: seq<seq<T>>, k: nat)
    requires k < |file|
    ensures Rows(file[..k + 1]) == Rows(file[..k]) + file[k]
  {
    assert file[..k + 1][..k] == file[..k];
  }

  lemma RowsOfAll<T>(file: seq<seq<T>>)
    ensures Rows(file[..|file|]) == Rows(file) && Rows(file[..0]) == []
  {
    assert file[..|file|] == file;
  }

  lemma {:induction false} RowsPrefix<T>(file: seq<seq<T>>, k: nat)
    requires k <= |file|
    ensures |Rows(file[..k])| <= |Rows(file)| && Rows(file[..k]) == Rows(file)[..|Rows(file[..k])|]
    decreases |file| - k
  {
    if k < |file| {
      RowsOneMore(file, k);
      RowsPrefix(file, k + 1);
    } else {
      RowsOfAll(file);
    }
  }

  lemma BatchOfRows<T>(file: seq<seq<T>>, k: nat)
    requires k < |file|
    ensures var n := |Rows(file[..k])|;
            && n + |file[k]| <= |Rows(file)|
            && Rows(file[..k]) == Rows(file)[..n]
            && file[k] == Rows(file)[n..n + |file[k]|]
            && Rows(file[..k + 1]) == Rows(file)[..n + |file[k]|]
  {
    RowsOneMore(file, k);
    RowsPrefix(file, k);
    RowsPrefix(file, k + 1);
    var n := |Rows(file[..k])|;
    assert Rows(file[..k + 1])[n..] == file[k];
  }
}
