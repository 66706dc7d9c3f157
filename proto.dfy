/**
 * The protobuf messages of the builder request that common/facade/extra.go
 * reads, reduced to the fields it reads. A message-typed field or a
 * repeated-message element may be nil in Go; that is `None` here.
 */
module Proto {
  import opened Wrappers

  /** The `Driver` enum; `Unlisted` is any value other than the three named ones. */
  datatype Driver = Doris | Mysql | Postgres | Unlisted(number: int)

  datatype BuilderRequest = BuilderRequest(driver: Driver)

  datatype Column = Column(alias: string)
  datatype Expression = Expression(callAs: string)
  datatype CaseWhen = CaseWhen(alias: string)

  /** The `mix` oneof of a `MixField`; each case holds a possibly nil message. */
  datatype Mix =
    | MixColumn(column: Option<Column>)
    | MixExpression(expression: Option<Expression>)
    | MixCaseWhen(caseWhen: Option<CaseWhen>)

  /** A projection entry; `mix` is `None` when the oneof is unset. */
  datatype MixField = MixField(mix: Option<Mix>)

  /** An ORDER BY entry: the projection it sorts by and the direction keyword. */
  datatype OrderBy = OrderBy(dependent: Option<MixField>, order: string)
}
