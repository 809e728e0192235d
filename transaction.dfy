/**
 * The `Transaction` entity of the server: a plain record whose constructor
 * copies the six fields of its argument, with no validation, defaulting or
 * derivation.
 */
module TransactionEntity {

  /**
   * A JavaScript `number`, kept as the bit pattern of its IEEE 754 double.
   * The entity never computes on it; it is only copied.
   */
  type JsNumber = bv64

  /**
   * The argument of the constructor (`TransactionConstructor`). The source's
   * field `type` is called `transactionType` here, `type` being a Dafny keyword.
   */
  datatype TransactionFields = TransactionFields(
    id: string,
    transactionType: JsNumber,
    date: string,
    productDescription: string,
    value: JsNumber,
    transactionOwnerName: string)

  /** An instance of the `Transaction` class. */
  datatype Transaction = Transaction(
    id: string,
    transactionType: JsNumber,
    date: string,
    productDescription: string,
    value: JsNumber,
    transactionOwnerName: string)

  /** `new Transaction(fields)`: every field of the result is the field of the same name of the argument. */
  function NewTransaction(fields: TransactionFields): (t: Transaction)
    ensures t.id == fields.id
    ensures t.transactionType == fields.transactionType && t.value == fields.value
    ensures t.date == fields.date
    ensures t.productDescription == fields.productDescription
    ensures t.transactionOwnerName == fields.transactionOwnerName
  {
    Transaction(fields.id, fields.transactionType, fields.date,
                fields.productDescription, fields.value, fields.transactionOwnerName)
  }

  /** The constructor argument that describes an existing transaction, field by field. */
  function FieldsOf(t: Transaction): (fields: TransactionFields)
    ensures fields.id == t.id
    ensures fields.transactionType == t.transactionType && fields.value == t.value
    ensures fields.date == t.date
    ensures fields.productDescription == t.productDescription
    ensures fields.transactionOwnerName == t.transactionOwnerName
  {
    TransactionFields(t.id, t.transactionType, t.date,
                      t.productDescription, t.value, t.transactionOwnerName)
  }

  /**
   * Construction is total and loses nothing: it is a bijection between
   * constructor arguments and transactions, with `FieldsOf` as its inverse.
   */
  lemma NewTransactionIsBijection(fields: TransactionFields, t: Transaction)
    ensures FieldsOf(NewTransaction(fields)) == fields
    ensures NewTransaction(FieldsOf(t)) == t
    ensures NewTransaction(fields) == t <==> fields == FieldsOf(t)
  {
  }
}
