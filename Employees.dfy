/**
 * A row of the `employees` table, as the document generators read it, and the value each
 * field map takes from one of its columns.
 */
module Employees {
  import opened Wrappers

  /**
   * An employee. `name` is required when an employee is created; every other column may be
   * null. `salary` is a number; `createdAt` is the `created_at` timestamp in milliseconds.
   */
  datatype Employee = Employee(
    id: string,
    name: string,
    storeName: Option<string>,
    rg: Option<string>,
    cpf: Option<string>,
    letterIssueDate: Option<string>,
    position: Option<string>,
    company: Option<string>,
    email: Option<string>,
    phone: Option<string>,
    department: Option<string>,
    hireDate: Option<string>,
    salary: Option<real>,
    workCardNumber: Option<string>,
    workCardSeries: Option<string>,
    address: Option<string>,
    city: Option<string>,
    state: Option<string>,
    zipCode: Option<string>,
    emergencyContact: Option<string>,
    emergencyPhone: Option<string>,
    companyLogoUrl: Option<string>,
    signatureUrl: Option<string>,
    stampUrl: Option<string>,
    createdAt: int)

  /** JavaScript truthiness of a nullable text column: set and not "". */
  predicate IsSet(o: Option<string>) {
    o.Some? && o.value != ""
  }

  /** `x || ""` for a nullable text column. */
  function OrEmpty(o: Option<string>): (r: string)
    ensures IsSet(o) ==> r == o.value
    ensures !IsSet(o) ==> r == ""
  {
    if o.Some? then o.value else ""
  }

  /**
   * The locale-dependent renderings the field maps use: `toLocaleDateString('pt-BR')` of a
   * date column and `String(n)` of the salary. They are parameters of the model.
   */
  datatype Formatters = Formatters(date: string -> string, number: real -> string)

  /** The columns the field maps read. */
  datatype Column =
    | Name | StoreName | Rg | Cpf | LetterIssueDate | Position | Company | Email | Phone
    | Department | HireDate | Salary | WorkCardNumber | WorkCardSeries | Address | City
    | State | ZipCode | EmergencyContact | EmergencyPhone

  predicate IsDateColumn(c: Column) {
    c == LetterIssueDate || c == HireDate
  }

  /** The raw content of a text or date column (the salary is a number and has none). */
  function RawText(e: Employee, c: Column): Option<string> {
    match c
    case Name => Some(e.name)
    case StoreName => e.storeName
    case Rg => e.rg
    case Cpf => e.cpf
    case LetterIssueDate => e.letterIssueDate
    case Position => e.position
    case Company => e.company
    case Email => e.email
    case Phone => e.phone
    case Department => e.department
    case HireDate => e.hireDate
    case Salary => None
    case WorkCardNumber => e.workCardNumber
    case WorkCardSeries => e.workCardSeries
    case Address => e.address
    case City => e.city
    case State => e.state
    case ZipCode => e.zipCode
    case EmergencyContact => e.emergencyContact
    case EmergencyPhone => e.emergencyPhone
  }

  /** JavaScript truthiness of column `c`; a salary of 0 is falsy. */
  predicate Present(e: Employee, c: Column) {
    if c == Salary then e.salary.Some? && e.salary.value != 0.0 else IsSet(RawText(e, c))
  }

  /**
   * The value a field map gives a field read from column `c`: `column || ""` for a text
   * column, `column ? format(column) : ""` for a date or the salary.
   */
  function ColumnValue(e: Employee, c: Column, f: Formatters): (v: string)
    ensures !Present(e, c) ==> v == ""
    ensures Present(e, c) && c != Salary && !IsDateColumn(c) ==> v == RawText(e, c).value
    ensures Present(e, c) && IsDateColumn(c) ==> v == f.date(RawText(e, c).value)
    ensures Present(e, c) && c == Salary ==> v == f.number(e.salary.value)
  {
    if c == Salary then
      if e.salary.Some? && e.salary.value != 0.0 then f.number(e.salary.value) else ""
    else if IsDateColumn(c) then
      if IsSet(RawText(e, c)) then f.date(RawText(e, c).value) else ""
    else
      OrEmpty(RawText(e, c))
  }
}
