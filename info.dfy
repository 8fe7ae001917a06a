/** The INFO column of a VCF record read into a key-to-value dictionary
    (varscan2vcf.py lines 87-94). */
module Info {
  import opened Text

  /** One iteration of the loop: a piece with no '=' adds nothing; a piece
      `k=v...` sets `k` to the text between its first and second '='. */
  function AddPiece(d: map<string, string>, piece: string): map<string, string> {
    var kv := Split(piece, '=');
    if |kv| == 1 then d else d[kv[0] := kv[1]]
  }

  /** The dictionary after the loop has run over `pieces`, in order. */
  function InfoDict(pieces: seq<string>): map<string, string> {
    if |pieces| == 0 then map[]
    else AddPiece(InfoDict(pieces[..|pieces| - 1]), pieces[|pieces| - 1])
  }

  /** The loop as the source writes it: a dictionary updated piece by piece. */
  method ParseInfo(info: string) returns (d: map<string, string>)
    ensures d == InfoDict(Split(info, ';'))
  {
    var pieces := Split(info, ';');
    d := map[];
    for i := 0 to |pieces|
      invariant d == InfoDict(pieces[..i])
    {
      var kv := Split(pieces[i], '=');
      if |kv| != 1 {
        d := d[kv[0] := kv[1]];
      }
      assert pieces[..i + 1][..i] == pieces[..i];
    }
    assert pieces[..|pieces|] == pieces;
  }

  /** The key of a piece that holds '=': the text before its first '='. */
  predicate IsEntry(piece: string, key: string) {
    '=' in piece && Split(piece, '=')[0] == key
  }

  /** The value a piece with '=' sets: the text between its first and second '='. */
  function EntryValue(piece: string): string
    requires '=' in piece
  {
    Split(piece, '=')[1]
  }

  /** What key and value a piece with '=' contributes, in terms of the piece itself. */
  lemma EntryParts(piece: string)
    requires '=' in piece
    ensures var i := FirstIndex(piece, '=');
            var rest := piece[i + 1..];
            IsEntry(piece, piece[..i])
            && EntryValue(piece) == if '=' in rest then rest[..FirstIndex(rest, '=')] else rest
  {
  }

  /** The piece `k=v`. */
  function Entry(k: string, v: string): string {
    k + "=" + v
  }

  /** `k=v` with no '=' in `k` or `v` is an entry for `k` with value `v`. */
  lemma EntryOf(k: string, v: string)
    requires '=' !in k && '=' !in v
    ensures IsEntry(Entry(k, v), k) && EntryValue(Entry(k, v)) == v
  {
    SplitOfJoin([k, v], '=');
    assert Join([k, v], '=') == k + "=" + v;
  }

  /** What one piece does to the entry for one key. */
  lemma AddPieceAt(d: map<string, string>, piece: string, key: string)
    ensures key in AddPiece(d, piece) <==> key in d || IsEntry(piece, key)
    ensures IsEntry(piece, key) ==> AddPiece(d, piece)[key] == EntryValue(piece)
    ensures !IsEntry(piece, key) && key in d ==> AddPiece(d, piece)[key] == d[key]
  {
  }

  /** A key is in the dictionary exactly when some piece is an entry for it. */
  lemma {:induction false} InfoHasKey(pieces: seq<string>, key: string)
    ensures key in InfoDict(pieces) <==> exists j :: 0 <= j < |pieces| && IsEntry(pieces[j], key)
  {
    if |pieces| > 0 {
      var n := |pieces| - 1;
      var init := pieces[..n];
      InfoHasKey(init, key);
      AddPieceAt(InfoDict(init), pieces[n], key);
      if j :| 0 <= j < n && IsEntry(init[j], key) {
        assert IsEntry(pieces[j], key);
      }
      if j :| 0 <= j < n && IsEntry(pieces[j], key) {
        assert IsEntry(init[j], key);
      }
    }
  }

  /** The value of a key is the one set by the last piece that is an entry for it. */
  lemma {:induction false} InfoValue(pieces: seq<string>, key: string, j: nat)
    requires j < |pieces| && IsEntry(pieces[j], key)
    requires forall j' :: j < j' < |pieces| ==> !IsEntry(pieces[j'], key)
    ensures key in InfoDict(pieces) && InfoDict(pieces)[key] == EntryValue(pieces[j])
  {
    var n := |pieces| - 1;
    var init := pieces[..n];
    AddPieceAt(InfoDict(init), pieces[n], key);
    if j < n {
      InfoValue(init, key, j);
    }
  }

  /** A piece with no '=' (such as the SOMATIC flag) leaves the dictionary as it was. */
  lemma FlagAddsNothing(pieces: seq<string>, flag: string)
    requires '=' !in flag
    ensures InfoDict(pieces + [flag]) == InfoDict(pieces)
  {
    assert (pieces + [flag])[..|pieces|] == pieces;
  }

  /** An entry `k=v` sets `k` to `v` and leaves every other key as it was. */
  lemma AddEntry(pieces: seq<string>, k: string, v: string)
    requires '=' !in k && '=' !in v
    ensures InfoDict(pieces + [Entry(k, v)]) == InfoDict(pieces)[k := v]
  {
    assert (pieces + [Entry(k, v)])[..|pieces|] == pieces;
    EntryOf(k, v);
  }

  /** A later entry for a key overrides an earlier one. */
  lemma LaterEntryWins(pieces: seq<string>, k: string, v: string)
    requires '=' !in k && '=' !in v
    ensures k in InfoDict(pieces + [Entry(k, v)]) && InfoDict(pieces + [Entry(k, v)])[k] == v
  {
    assert (pieces + [Entry(k, v)])[..|pieces|] == pieces;
    EntryOf(k, v);
  }
}
