/** The part of the `xorm.io/builder` package that dialect resolution uses. */
module Xorm {

  /** The dialect names of the builder package. */
  const MYSQL: string := "mysql"
  const POSTGRES: string := "postgres"

  /** A SQL builder; only the dialect it was created for is modelled. */
  datatype Builder = Builder(dialect: string)

  /** `xorm.Dialect(d)`: a fresh builder for dialect `d`. */
  function Dialect(d: string): Builder
  {
    Builder(d)
  }
}
