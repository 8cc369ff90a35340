/**
 The record both document parsers fill in. Every field is optional, as in the
 TypeScript interface: a parser leaves a field out when it found nothing.
 */
module Documents {
  import opened Wrappers
  import opened Dates
  import opened DebtRows

  datatype ParsedDocument = ParsedDocument(
    debtorName: Option<string>,
    amount: Option<real>,
    dueDate: Option<Date>,
    unit: Option<string>,
    condominiumName: Option<string>,
    cpfCnpj: Option<string>,
    debtItems: Option<seq<DebtItem>>)

  /** JavaScript truthiness of an optional text field: present and not empty. */
  predicate Present(field: Option<string>) {
    field.Some? && field.value != ""
  }
}
