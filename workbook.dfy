/** The workbook model the `fillModel` methods populate (`xlsmodel`, whose code
    is not part of this model). Its effect is recorded as the sequence of setter
    calls made on it, in order. */
module Workbook {
  import opened Stream
  import opened RK

  /** `formula.CellRange`. */
  datatype CellRange = CellRange(firstRow: nat, lastRow: nat, firstCol: nat, lastCol: nat)

  datatype Supbook =
    | SupbookSelf(sheetCount: nat)                          // `xlsmodel.SupbookSelf(ctab)`
    | SupbookGeneric                                        // the add-in placeholder `xlsmodel.Supbook()`
    | SupbookExternal(docURL: string, sheetNames: seq<string>)

  /** A value cached for an external cell, as the CRN record carries it. */
  datatype CachedValue =
    | CachedEmpty
    | CachedNumber(pattern: nat)
    | CachedString(text: string)
    | CachedBool(value: nat)
    | CachedError(value: nat)

  /** `xlsmodel.DataValidation`, with the table texts already looked up. */
  datatype DataValidation = DataValidation(
    ranges: seq<CellRange>, valueType: string, errorStyle: string, operator: string,
    showInputMsg: bool, showErrorMsg: bool, strLookup: bool, allowBlank: bool,
    prompt: string, promptTitle: string, error: string, errorTitle: string,
    formula1: string, formula2: string)

  datatype ModelOp =
    | SetAutoFilterArrow(filterIndex: nat, isActive: bool, equalString1: Option<string>, equalString2: Option<string>)
    | SetCondFormat(formatRange: CellRange)
    | SetDataValidation(validation: DataValidation)
    | SetCell(col: nat, row: nat, number: RkNumber)
    | SetRowHidden(row: nat)
    | SetRowHeight(row: nat, height: nat)
    | SetFilterRange(sheetId: int, tokens: seq<Byte>)
    | AppendSupbook(supbook: Supbook)
    | AppendExternSheet(book: nat, sheet1: nat, sheet2: nat)
    | SetCachedValue(row: nat, col: nat, typeId: nat, value: CachedValue)

  /** The supporting workbook appended last, if any. */
  function LastSupbook(ops: seq<ModelOp>): (r: Option<Supbook>)
    ensures r.Some? <==> exists i :: 0 <= i < |ops| && ops[i].AppendSupbook?
  {
    if ops == [] then None
    else if ops[|ops| - 1].AppendSupbook? then Some(ops[|ops| - 1].supbook)
    else
      var r := LastSupbook(ops[..|ops| - 1]);
      assert forall i :: 0 <= i < |ops| - 1 ==> ops[..|ops| - 1][i] == ops[i];
      r
  }

  class Model {
    var ops: seq<ModelOp>

    constructor ()
      ensures ops == []
    {
      ops := [];
    }

    method Perform(op: ModelOp)
      modifies this
      ensures ops == old(ops) + [op]
    {
      ops := ops + [op];
    }

    function GetLastSupbook(): Option<Supbook>
      reads this
    {
      LastSupbook(ops)
    }
  }
}
