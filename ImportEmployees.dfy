/**
 * The `import-employees` function: it checks the credentials of the external database, reads
 * its employees and inserts each of them, without its id and timestamps, into the local
 * database, counting the inserts that succeed and collecting the ones that fail. The
 * environment, the fetched rows and the outcome of each insert are inputs.
 */
module ImportEmployees {
  import opened Wrappers
  import opened Strings
  import opened JsValues

  /** An employee row as the external database returns it: column name to JSON value. */
  type Record = map<string, Value>

  /** `{ employee: employee.name, error: importError.message }`; a missing name is `Null`. */
  datatype ImportError = ImportError(employee: Value, error: string)

  /**
   * The JSON reply: `Failed` is the 500 of the `catch` block; `Done` is a `success: true`
   * reply, whose `total` and `errors` are absent when `None`.
   */
  datatype Reply =
    | Failed(error: string)
    | Done(message: string, imported: nat, total: Option<nat>, errors: Option<seq<ImportError>>)

  const MissingCredentials := "External Supabase credentials not configured. Please configure EXTERNAL_SUPABASE_URL and EXTERNAL_SUPABASE_ANON_KEY secrets."
  const NothingToImport := "No employees found to import"

  /** `value.substring(0, 50)`. */
  function Shown(value: string): (r: string)
    ensures |r| <= 50 && StartsWith(value, r)
    ensures |value| <= 50 ==> r == value
    ensures |value| > 50 ==> r == value[..50]
  {
    if |value| <= 50 then value else value[..50]
  }

  function BadUrl(url: string): string {
    "Invalid EXTERNAL_SUPABASE_URL format. Expected a URL starting with http:// or https://, got: " + Shown(url) + "..."
  }

  function BadKey(key: string): string {
    "Invalid EXTERNAL_SUPABASE_ANON_KEY format. Expected a JWT token starting with eyJ, got: " + Shown(key) + "..."
  }

  /** An environment variable counts as set when it is defined and not empty. */
  predicate Set(v: Option<string>) {
    v.Some? && v.value != ""
  }

  predicate UrlLike(url: string) {
    StartsWith(url, "http://") || StartsWith(url, "https://")
  }

  predicate JwtLike(key: string) {
    StartsWith(key, "eyJ")
  }

  /**
   * The checks of `EXTERNAL_SUPABASE_URL` and `EXTERNAL_SUPABASE_ANON_KEY`, in the order the
   * function makes them: both set, then the URL's scheme, then the key's JWT prefix.
   */
  function CheckCredentials(url: Option<string>, key: Option<string>): (r: Result<(string, string), string>)
    ensures r.Success? <==> Set(url) && Set(key) && UrlLike(url.value) && JwtLike(key.value)
    ensures r.Success? ==> r.value == (url.value, key.value)
  {
    if !Set(url) || !Set(key) then Failure(MissingCredentials)
    else if !UrlLike(url.value) then Failure(BadUrl(url.value))
    else if !JwtLike(key.value) then Failure(BadKey(key.value))
    else Success((url.value, key.value))
  }

  /** A missing credential is reported first; a bad URL before a bad key. */
  lemma CredentialChecksInOrder(url: Option<string>, key: Option<string>)
    ensures !Set(url) || !Set(key) ==> CheckCredentials(url, key) == Failure(MissingCredentials)
    ensures Set(url) && Set(key) && !UrlLike(url.value) ==> CheckCredentials(url, key) == Failure(BadUrl(url.value))
    ensures Set(url) && Set(key) && UrlLike(url.value) && !JwtLike(key.value) ==>
              CheckCredentials(url, key) == Failure(BadKey(key.value))
  {
  }

  /** The columns the local database fills in itself. */
  const Generated: set<string> := {"id", "created_at", "updated_at"}

  /** `const { id, created_at, updated_at, ...employeeData } = employee`. */
  function Payload(employee: Record): (r: Record)
    ensures forall k :: k in r <==> k in employee && k !in Generated
    ensures forall k :: k in r ==> r[k] == employee[k]
  {
    employee - Generated
  }

  /** `employee.name`, `undefined` being `Null`. */
  function NameOf(employee: Record): Value {
    if "name" in employee then employee["name"] else Null
  }

  /**
   * The outcome of the inserts: `insert(i, record)` is what the `i`-th insert of the loop returns
   * for `record`, so two inserts of equal records may fare differently.
   */
  type Insert = (nat, Record) -> Result<Value, string>

  /** What the `i`-th insert leaves in `importedEmployees`: its new row, if it succeeds. */
  function ImportedRow(i: nat, employee: Record, insert: Insert): seq<Value> {
    match insert(i, Payload(employee))
    case Success(row) => [row]
    case Failure(_) => []
  }

  /** What the `i`-th insert leaves in `errors`: the employee's name and the message, if it fails. */
  function ErrorOf(i: nat, employee: Record, insert: Insert): seq<ImportError> {
    match insert(i, Payload(employee))
    case Success(_) => []
    case Failure(message) => [ImportError(NameOf(employee), message)]
  }

  /** The rows inserted, one per successful insert, in the order of the employees. */
  function Imported(employees: seq<Record>, insert: Insert): seq<Value> {
    if employees == [] then []
    else Imported(employees[..|employees| - 1], insert) + ImportedRow(|employees| - 1, employees[|employees| - 1], insert)
  }

  /** The errors, one per failed insert, in the order of the employees. */
  function Failures(employees: seq<Record>, insert: Insert): seq<ImportError> {
    if employees == [] then []
    else Failures(employees[..|employees| - 1], insert) + ErrorOf(|employees| - 1, employees[|employees| - 1], insert)
  }

  /** Every employee is counted once: imported or failed. */
  lemma {:induction false} TallyTotal(employees: seq<Record>, insert: Insert)
    ensures |Imported(employees, insert)| + |Failures(employees, insert)| == |employees|
  {
    if employees != [] {
      TallyTotal(employees[..|employees| - 1], insert);
    }
  }

  /** No error is collected exactly when every insert succeeds. */
  lemma {:induction false} NoFailures(employees: seq<Record>, insert: Insert)
    ensures Failures(employees, insert) == [] <==>
              forall i :: 0 <= i < |employees| ==> insert(i, Payload(employees[i])).Success?
  {
    if employees != [] {
      var init := employees[..|employees| - 1];
      NoFailures(init, insert);
      assert forall i :: 0 <= i < |init| ==> init[i] == employees[i];
    }
  }

  /**
   * The `for` loop: each employee, in order, is inserted once without its generated columns;
   * the new rows and the errors are collected.
   */
  method ImportAll(employees: seq<Record>, insert: Insert)
    returns (requests: seq<Record>, imported: seq<Value>, errors: seq<ImportError>)
    ensures |requests| == |employees|
    ensures forall i :: 0 <= i < |employees| ==> requests[i] == Payload(employees[i])
    ensures imported == Imported(employees, insert)
    ensures errors == Failures(employees, insert)
  {
    requests, imported, errors := [], [], [];
    for i := 0 to |employees|
      invariant |requests| == i
      invariant forall j :: 0 <= j < i ==> requests[j] == Payload(employees[j])
      invariant imported == Imported(employees[..i], insert)
      invariant errors == Failures(employees[..i], insert)
    {
      var employee := employees[i];
      assert employees[..i + 1][..i] == employees[..i];
      requests := requests + [Payload(employee)];
      match insert(i, Payload(employee))
      case Failure(message) =>
        errors := errors + [ImportError(NameOf(employee), message)];
      case Success(row) =>
        imported := imported + [row];
    }
    assert employees[..|employees|] == employees;
  }

  /** `Import completed: ${importedEmployees.length} employees imported`. */
  function CompletedMessage(imported: nat): string {
    "Import completed: " + NatToString(imported) + " employees imported"
  }

  /** The reply after the loop; `errors` is left out when it is empty. */
  function Completed(employees: seq<Record>, insert: Insert): Reply {
    var imported := |Imported(employees, insert)|;
    var errors := Failures(employees, insert);
    Done(CompletedMessage(imported), imported, Some(|employees|), if errors != [] then Some(errors) else None)
  }

  /**
   * The reply after the loop counts every employee once, and lists errors exactly when some
   * insert failed.
   */
  lemma CompletedTally(employees: seq<Record>, insert: Insert)
    ensures var r := Completed(employees, insert);
            r.Done? && r.total == Some(|employees|)
            && r.imported + (if r.errors.Some? then |r.errors.value| else 0) == |employees|
            && (r.errors.None? <==> forall i :: 0 <= i < |employees| ==> insert(i, Payload(employees[i])).Success?)
            && r.message == CompletedMessage(r.imported)
  {
    TallyTotal(employees, insert);
    NoFailures(employees, insert);
  }

  /**
   * The whole function. `fetched` is the external `select('*')`: its error, or its rows
   * (`null` is `None`). The requests are the inserts issued, in order.
   */
  method Import(url: Option<string>, key: Option<string>, fetched: Result<Option<seq<Record>>, string>,
                insert: Insert)
    returns (requests: seq<Record>, reply: Reply)
    ensures CheckCredentials(url, key).Failure? ==>
              requests == [] && reply == Failed(CheckCredentials(url, key).error)
    ensures CheckCredentials(url, key).Success? && fetched.Failure? ==>
              requests == [] && reply == Failed("Failed to fetch employees: " + fetched.error)
    ensures CheckCredentials(url, key).Success? && fetched.Success?
            && (fetched.value.None? || fetched.value.value == []) ==>
              requests == [] && reply == Done(NothingToImport, 0, None, None)
    ensures CheckCredentials(url, key).Success? && fetched.Success?
            && fetched.value.Some? && fetched.value.value != [] ==>
              |requests| == |fetched.value.value|
              && (forall i :: 0 <= i < |requests| ==> requests[i] == Payload(fetched.value.value[i]))
              && reply == Completed(fetched.value.value, insert)
  {
    var credentials := CheckCredentials(url, key);
    if credentials.Failure? {
      return [], Failed(credentials.error);
    }
    if fetched.Failure? {
      return [], Failed("Failed to fetch employees: " + fetched.error);
    }
    if fetched.value.None? || fetched.value.value == [] {
      return [], Done(NothingToImport, 0, None, None);
    }
    var employees := fetched.value.value;
    var imported, errors;
    requests, imported, errors := ImportAll(employees, insert);
    reply := Done(CompletedMessage(|imported|), |imported|, Some(|employees|),
                  if |errors| > 0 then Some(errors) else None);
  }
}
