/**
 * The shared declarations of `src/wasm/src/stats/types.rs` and
 * `src/wasm/src/quality/mod.rs`.
 */
module Types {

  /** The type a column is inferred to hold. */
  datatype DataType = Integer | Numeric | String | Boolean | Date | Null

  /** `format!("{:?}", ty)`: the variant's name. */
  function DataTypeName(t: DataType): string {
    match t
    case Integer => "Integer"
    case Numeric => "Numeric"
    case String => "String"
    case Boolean => "Boolean"
    case Date => "Date"
    case Null => "Null"
  }

  /** Different types have different names, so a name test such as `== "String"` picks out one type. */
  lemma DataTypeNameInjective(a: DataType, b: DataType)
    ensures DataTypeName(a) == DataTypeName(b) <==> a == b
  {
  }

  datatype BaseStats = BaseStats(count: nat, missing: nat, distinctEstimate: nat, inferredType: DataType)

  datatype Severity = Info | Warning | Error

  /**
   * A data-quality finding. The human-readable message is not modelled: it is
   * built with floating-point formatting.
   */
  datatype QualityIssue = QualityIssue(id: string, severity: Severity)
}
