/** `load_Y_values`: one CSV row of ground truth per image, a flat list of
    7-token car groups `[type, yaw, pitch, roll, tx, ty, tz]`, turned into
    7-vectors `[q0, q1, q2, q3, tx, ty, tz]` sorted by `ty`. */
module GroundTruth {
  import opened Wrappers
  import opened StableSort

  /** The four components of `euler2quat`'s result, in the order `list(...)` gives them. */
  datatype Quaternion = Quaternion(q0: real, q1: real, q2: real, q3: real)

  function Components(q: Quaternion): seq<real> {
    [q.q0, q.q1, q.q2, q.q3]
  }

  /** An Euler-to-quaternion encoder taking `(roll, pitch, yaw)`; the
      library's conversion is a parameter of this model. */
  type EulerToQuat = (real, real, real) -> Quaternion

  /** The `IndexError` the loop or the sort raises on a too-short trailing group. */
  datatype ParseError = IndexError

  /** One CSV record after the header: the image id and its numeric tokens
      (the type token included). */
  datatype CsvRow = CsvRow(imageId: string, params: seq<real>)

  datatype GroundTruthTable = GroundTruthTable(fileExamples: seq<seq<seq<real>>>, filenames: seq<string>)

  function Min(a: int, b: int): int {
    if a < b then a else b
  }

  /** The entry of the group starting at token `k`: the type token is
      skipped, the angles are handed to the encoder in reverse order and the
      (at most three) following tokens are appended. */
  function GroupEntry(t: seq<real>, k: nat, toQuat: EulerToQuat): seq<real>
    requires k + 3 < |t|
  {
    var pose := t[k + 1 .. Min(k + 7, |t|)];
    Components(toQuat(pose[2], pose[1], pose[0])) + pose[3..]
  }

  lemma GroupEntryLength(t: seq<real>, k: nat, toQuat: EulerToQuat)
    requires k + 3 < |t|
    ensures |GroupEntry(t, k, toQuat)| == Min(7, |t| - k)
  {
  }

  function GroupCount(t: seq<real>): nat {
    (|t| + 6) / 7
  }

  /** A trailing group of one to five tokens: the code raises `IndexError`
      (at `eulers[2]` for up to three tokens, in the sort key `x[5]` for four
      or five). A trailing group of six tokens is accepted. */
  predicate Malformed(t: seq<real>) {
    1 <= |t| % 7 <= 5
  }

  /** The entries of a row, one per group, in row order. */
  function Entries(t: seq<real>, toQuat: EulerToQuat): seq<seq<real>>
    requires !Malformed(t)
  {
    seq(GroupCount(t), j requires 0 <= j < GroupCount(t) => GroupEntry(t, 7 * j, toQuat))
  }

  /** The sort key `x[5]` (`ty`); every entry that reaches the sort has an element 5. */
  function TyKey(e: seq<real>): real {
    if |e| > 5 then e[5] else 0.0
  }

  /** The per-image result of `load_Y_values`. */
  function ParseRow(t: seq<real>, toQuat: EulerToQuat): Result<seq<seq<real>>, ParseError> {
    if Malformed(t) then Err(IndexError) else Ok(SortedBy(Entries(t, toQuat), TyKey, false))
  }

  /** Where the loop stops on a short group `k`, the row length leaves
      remainder one to three. */
  lemma ShortGroupRemainder(n: int, g: int)
    requires 0 <= 7 * g < n < 7 * g + 4
    ensures 1 <= n % 7 <= 3
  {
    assert n == 7 * g + (n - 7 * g);
  }

  /** When the loop ends after `g` groups, each of at least four tokens,
      `g` is the group count and the last group has `n - 7(g-1)` tokens. */
  lemma LoopExit(n: int, g: int)
    requires 0 <= n <= 7 * g && (g == 0 || 7 * (g - 1) + 3 < n)
    ensures (n + 6) / 7 == g
    ensures !(1 <= n % 7 <= 3)
    ensures (4 <= n % 7 <= 5) <==> (g > 0 && n - 7 * (g - 1) <= 5)
  {
    if g > 0 {
      var d := n - 7 * (g - 1);
      assert 4 <= d <= 7;
      assert n == 7 * (g - 1) + d;
    }
  }

  /** The `while k < len(list_of_params)` loop followed by the sort. */
  method LoadRow(t: seq<real>, toQuat: EulerToQuat) returns (res: Result<seq<seq<real>>, ParseError>)
    ensures res == ParseRow(t, toQuat)
  {
    var examples: seq<seq<real>> := [];
    var k := 0;
    while k < |t|
      invariant k == 7 * |examples| && k < |t| + 7
      invariant forall j :: 0 <= j < |examples| ==> 7 * j + 3 < |t| && examples[j] == GroupEntry(t, 7 * j, toQuat)
      decreases |t| - k
    {
      if |t| - k < 4 {
        ShortGroupRemainder(|t|, |examples|);
        return Err(IndexError);
      }
      examples := examples + [GroupEntry(t, k, toQuat)];
      k := k + 7;
    }
    var g := |examples|;
    LoopExit(|t|, g);
    if g > 0 {
      GroupEntryLength(t, 7 * (g - 1), toQuat);
    }
    if exists i :: 0 <= i < g && |examples[i]| <= 5 {
      var i :| 0 <= i < g && |examples[i]| <= 5;
      GroupEntryLength(t, 7 * i, toQuat);
      return Err(IndexError);
    }
    assert examples == Entries(t, toQuat);
    res := Ok(SortedBy(examples, TyKey, false));
  }

  /** A row of `7n` tokens yields `n` entries; entry `j` skips the type
      token `t[7j]`, encodes the angles as `(roll, pitch, yaw) = (t[7j+3], t[7j+2], t[7j+1])`
      and appends `t[7j+4 .. 7j+7]`. */
  lemma WholeGroups(t: seq<real>, toQuat: EulerToQuat, j: nat)
    requires |t| % 7 == 0 && j < |t| / 7
    ensures !Malformed(t) && |Entries(t, toQuat)| == |t| / 7
    ensures Entries(t, toQuat)[j]
         == Components(toQuat(t[7 * j + 3], t[7 * j + 2], t[7 * j + 1])) + [t[7 * j + 4], t[7 * j + 5], t[7 * j + 6]]
  {
    var pose := t[7 * j + 1 .. 7 * j + 7];
    assert pose[3..] == [t[7 * j + 4], t[7 * j + 5], t[7 * j + 6]];
  }

  /** A row of `7n + 6` tokens is accepted: its last entry lacks `tz` and
      has six elements, every other entry has seven. */
  lemma TruncatedLastGroup(t: seq<real>, toQuat: EulerToQuat)
    requires |t| % 7 == 6
    ensures ParseRow(t, toQuat).Ok?
    ensures var e := Entries(t, toQuat);
      |e| > 0 && |e[|e| - 1]| == 6 && forall j :: 0 <= j < |e| - 1 ==> |e[j]| == 7
  {
    var e := Entries(t, toQuat);
    GroupEntryLength(t, 7 * (|e| - 1), toQuat);
    forall j | 0 <= j < |e| - 1 ensures |e[j]| == 7 {
      GroupEntryLength(t, 7 * j, toQuat);
    }
  }

  /** The per-image list is the row's entries, sorted ascending on `ty`
      (element 5), and entries with equal `ty` stay in row order. */
  lemma ParsedRowIsSortedByTy(t: seq<real>, toQuat: EulerToQuat)
    requires !Malformed(t)
    ensures ParseRow(t, toQuat).Ok?
    ensures var r := ParseRow(t, toQuat).value;
      && multiset(r) == multiset(Entries(t, toQuat))
      && (forall i, j :: 0 <= i < j < |r| ==> TyKey(r[i]) <= TyKey(r[j]))
      && (forall ty :: KeyClass(r, TyKey, ty) == KeyClass(Entries(t, toQuat), TyKey, ty))
  {
    SortedByIsStableSort(Entries(t, toQuat), TyKey, false);
  }

  /** Every entry that reaches the sort has an element 5 (so `TyKey` is `x[5]`),
      and all of them have at least six elements. */
  lemma EntriesHaveTy(t: seq<real>, toQuat: EulerToQuat)
    requires !Malformed(t)
    ensures forall e :: e in Entries(t, toQuat) ==> 6 <= |e| <= 7 && TyKey(e) == e[5]
  {
    var es := Entries(t, toQuat);
    forall j | 0 <= j < |es| ensures 6 <= |es[j]| <= 7 {
      GroupEntryLength(t, 7 * j, toQuat);
    }
  }

  /** `load_Y_values` over the CSV records (header already dropped): one
      sorted entry list and one `<id>.jpg` file name per image; the first
      malformed row aborts the whole load. */
  method LoadYValues(rows: seq<CsvRow>, toQuat: EulerToQuat) returns (res: Result<GroundTruthTable, ParseError>)
    ensures res.Err? <==> exists i :: 0 <= i < |rows| && Malformed(rows[i].params)
    ensures res.Ok? ==>
      && |res.value.fileExamples| == |rows| && |res.value.filenames| == |rows|
      && forall i :: 0 <= i < |rows| ==>
           && res.value.fileExamples[i] == ParseRow(rows[i].params, toQuat).value
           && res.value.filenames[i] == rows[i].imageId + ".jpg"
  {
    var fileExamples: seq<seq<seq<real>>> := [];
    var filenames: seq<string> := [];
    for i := 0 to |rows|
      invariant |fileExamples| == i && |filenames| == i
      invariant forall j :: 0 <= j < i ==> !Malformed(rows[j].params)
      invariant forall j :: 0 <= j < i ==>
        fileExamples[j] == ParseRow(rows[j].params, toQuat).value && filenames[j] == rows[j].imageId + ".jpg"
    {
      var examples := LoadRow(rows[i].params, toQuat);
      if examples.Err? {
        return Err(examples.error);
      }
      fileExamples := fileExamples + [examples.value];
      filenames := filenames + [rows[i].imageId + ".jpg"];
    }
    res := Ok(GroundTruthTable(fileExamples, filenames));
  }
}
