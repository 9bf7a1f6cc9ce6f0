/**
 * The field names the document field maps use, the column each one reads, and the facts
 * about their spelling that the substitution lemmas rely on.
 */
module FieldMaps {
  import opened Wrappers
  import opened Strings
  import opened Placeholders
  import E = Employees

  /** Every field name that occurs in a field map. */
  datatype FieldName =
    | Nome | NomeColaborador | Loja | NomeLoja | Rg | Cpf | DataEmissao | DataCarta | Funcao
    | Cargo | Empresa | Email | Telefone | Departamento | DataAdmissao | Salario
    | NumeroCarteiraTrabalho | Serie | Endereco | Cidade | Estado | Cep | ContatoEmergencia
    | TelefoneEmergencia

  /** The key as written in the field map, and so inside `{{…}}` in a template. */
  function Key(n: FieldName): string {
    match n
    case Nome => "nome"
    case NomeColaborador => "nome_colaborador"
    case Loja => "loja"
    case NomeLoja => "nome_loja"
    case Rg => "rg"
    case Cpf => "cpf"
    case DataEmissao => "data_emissao"
    case DataCarta => "data_carta"
    case Funcao => "funcao"
    case Cargo => "cargo"
    case Empresa => "empresa"
    case Email => "email"
    case Telefone => "telefone"
    case Departamento => "departamento"
    case DataAdmissao => "data_admissao"
    case Salario => "salario"
    case NumeroCarteiraTrabalho => "numero_carteira_trabalho"
    case Serie => "serie"
    case Endereco => "endereco"
    case Cidade => "cidade"
    case Estado => "estado"
    case Cep => "cep"
    case ContatoEmergencia => "contato_emergencia"
    case TelefoneEmergencia => "telefone_emergencia"
  }

  /** The column a field is read from; both names of a pair (`nome`, `nome_colaborador`) share one. */
  function Source(n: FieldName): E.Column {
    match n
    case Nome => E.Name
    case NomeColaborador => E.Name
    case Loja => E.StoreName
    case NomeLoja => E.StoreName
    case Rg => E.Rg
    case Cpf => E.Cpf
    case DataEmissao => E.LetterIssueDate
    case DataCarta => E.LetterIssueDate
    case Funcao => E.Position
    case Cargo => E.Position
    case Empresa => E.Company
    case Email => E.Email
    case Telefone => E.Phone
    case Departamento => E.Department
    case DataAdmissao => E.HireDate
    case Salario => E.Salary
    case NumeroCarteiraTrabalho => E.WorkCardNumber
    case Serie => E.WorkCardSeries
    case Endereco => E.Address
    case Cidade => E.City
    case Estado => E.State
    case Cep => E.ZipCode
    case ContatoEmergencia => E.EmergencyContact
    case TelefoneEmergencia => E.EmergencyPhone
  }

  /** The field map of employee `e` with the fields of `order`, in that order. */
  function FieldMap(order: seq<FieldName>, e: E.Employee, f: E.Formatters): (fields: seq<Field>)
    ensures |fields| == |order|
    ensures forall i :: 0 <= i < |order| ==>
              fields[i] == Field(Key(order[i]), E.ColumnValue(e, Source(order[i]), f))
  {
    seq(|order|, i requires 0 <= i < |order| => Field(Key(order[i]), E.ColumnValue(e, Source(order[i]), f)))
  }

  /** A field whose column is absent (null, "", or a salary of 0) gets the value "". */
  lemma AbsentColumnsGiveEmptyFields(order: seq<FieldName>, e: E.Employee, f: E.Formatters, i: int)
    requires 0 <= i < |order| && !E.Present(e, Source(order[i]))
    ensures FieldMap(order, e, f)[i] == Field(Key(order[i]), "")
  {
  }

  /**
   * A field map over distinct field names is a map: no two entries share a key, and every key
   * is one `{{key}}` pattern can name in lower case.
   */
  lemma FieldMapKeys(order: seq<FieldName>, e: E.Employee, f: E.Formatters)
    requires forall i, j :: 0 <= i < j < |order| ==> order[i] != order[j]
    ensures forall i :: 0 <= i < |order| ==> LowerKey(FieldMap(order, e, f)[i].key)
    ensures forall i, j :: 0 <= i < j < |order| ==> FieldMap(order, e, f)[i].key != FieldMap(order, e, f)[j].key
  {
    var fields := FieldMap(order, e, f);
    forall i | 0 <= i < |order| ensures LowerKey(fields[i].key) {
      KeyIsLower(order[i]);
    }
    forall i, j | 0 <= i < j < |order| ensures fields[i].key != fields[j].key {
      KeyIsInjective(order[i], order[j]);
    }
  }

  // ---------------------------------------------------------------------------------------
  // Spelling of the keys

  /** Every key is lower-case letters and `_`. */
  lemma KeyIsLower(n: FieldName)
    ensures LowerKey(Key(n))
  {
    if n.Nome? || n.NomeColaborador? || n.Loja? || n.NomeLoja? || n.Rg? || n.Cpf? || n.DataEmissao? || n.DataCarta? {
      FirstKeysLower(n);
    } else if n.Funcao? || n.Cargo? || n.Empresa? || n.Email? || n.Telefone? || n.Departamento? || n.DataAdmissao? || n.Salario? {
      MiddleKeysLower(n);
    } else {
      LastKeysLower(n);
    }
  }

  lemma FirstKeysLower(n: FieldName)
    requires n.Nome? || n.NomeColaborador? || n.Loja? || n.NomeLoja? || n.Rg? || n.Cpf? || n.DataEmissao? || n.DataCarta?
    ensures LowerKey(Key(n))
  {
  }

  lemma MiddleKeysLower(n: FieldName)
    requires n.Funcao? || n.Cargo? || n.Empresa? || n.Email? || n.Telefone? || n.Departamento? || n.DataAdmissao? || n.Salario?
    ensures LowerKey(Key(n))
  {
  }

  lemma LastKeysLower(n: FieldName)
    requires n.NumeroCarteiraTrabalho? || n.Serie? || n.Endereco? || n.Cidade? || n.Estado? || n.Cep? || n.ContatoEmergencia? || n.TelefoneEmergencia?
    ensures LowerKey(Key(n))
  {
  }

  /**
   * The field whose key has the given length and first two characters: these three are
   * enough to tell the keys apart.
   */
  function FieldWithPrefix(length: int, first: char, second: char): Option<FieldName> {
    if length == 4 && first == 'n' && second == 'o' then Some(Nome)
    else if length == 16 && first == 'n' && second == 'o' then Some(NomeColaborador)
    else if length == 4 && first == 'l' && second == 'o' then Some(Loja)
    else if length == 9 && first == 'n' && second == 'o' then Some(NomeLoja)
    else if length == 2 && first == 'r' && second == 'g' then Some(FieldName.Rg)
    else if length == 3 && first == 'c' && second == 'p' then Some(FieldName.Cpf)
    else if length == 12 && first == 'd' && second == 'a' then Some(DataEmissao)
    else if length == 10 && first == 'd' && second == 'a' then Some(DataCarta)
    else if length == 6 && first == 'f' && second == 'u' then Some(Funcao)
    else if length == 5 && first == 'c' && second == 'a' then Some(Cargo)
    else if length == 7 && first == 'e' && second == 'm' then Some(Empresa)
    else if length == 5 && first == 'e' && second == 'm' then Some(FieldName.Email)
    else if length == 8 && first == 't' && second == 'e' then Some(Telefone)
    else if length == 12 && first == 'd' && second == 'e' then Some(Departamento)
    else if length == 13 && first == 'd' && second == 'a' then Some(DataAdmissao)
    else if length == 7 && first == 's' && second == 'a' then Some(Salario)
    else if length == 24 && first == 'n' && second == 'u' then Some(NumeroCarteiraTrabalho)
    else if length == 5 && first == 's' && second == 'e' then Some(Serie)
    else if length == 8 && first == 'e' && second == 'n' then Some(Endereco)
    else if length == 6 && first == 'c' && second == 'i' then Some(Cidade)
    else if length == 6 && first == 'e' && second == 's' then Some(Estado)
    else if length == 3 && first == 'c' && second == 'e' then Some(Cep)
    else if length == 18 && first == 'c' && second == 'o' then Some(ContatoEmergencia)
    else if length == 19 && first == 't' && second == 'e' then Some(TelefoneEmergencia)
    else None
  }

  /** Every key is told apart from the others by its length and first two characters. */
  lemma KeyPrefixIdentifies(n: FieldName)
    ensures |Key(n)| >= 2 && FieldWithPrefix(|Key(n)|, Key(n)[0], Key(n)[1]) == Some(n)
  {
  }

  /** No two fields have the same key. */
  lemma KeyIsInjective(n: FieldName, m: FieldName)
    ensures Key(n) == Key(m) ==> n == m
  {
    KeyPrefixIdentifies(n);
    KeyPrefixIdentifies(m);
  }

  /** `{{assinatura}}` and `{{carimbo}}` name no field. */
  lemma ImageKeysAreNoFieldNames(n: FieldName)
    ensures Key(n) != "assinatura" && Key(n) != "carimbo"
  {
  }

  /** The only field named `data_admissao` and the only field named `salario`. */
  lemma HireDateAndSalaryKeys(n: FieldName)
    ensures Key(n) == "data_admissao" ==> n == DataAdmissao
    ensures Key(n) == "salario" ==> n == Salario
  {
  }

  // ---------------------------------------------------------------------------------------
  // Substituting a field map

  predicate HasKey(order: seq<FieldName>, key: string) {
    exists i :: 0 <= i < |order| && Key(order[i]) == key
  }

  /**
   * A placeholder whose key, up to case, names no field of the map passes through the
   * substitution verbatim, and the text around it is substituted as if it were not there.
   */
  lemma UnlistedPlaceholderSurvives(order: seq<FieldName>, key: string, a: string, b: string,
                                    e: E.Employee, f: E.Formatters)
    requires BraceFree(key) && !HasKey(order, Lower(key))
    ensures ApplyRules(a + Brace(key) + b, KeyRules(FieldMap(order, e, f)))
         == ApplyRules(a, KeyRules(FieldMap(order, e, f))) + Brace(key)
            + ApplyRules(b, KeyRules(FieldMap(order, e, f)))
  {
    var fields := FieldMap(order, e, f);
    forall i | 0 <= i < |fields| ensures LowerKey(fields[i].key) && fields[i].key != Lower(key) {
      KeyIsLower(order[i]);
    }
    UnknownPlaceholderSurvives(a, key, b, fields);
  }

  /**
   * `{{assinatura}}` and `{{carimbo}}`, the placeholders of the signature and stamp images,
   * survive the substitution of every field map.
   */
  lemma ImagePlaceholderSurvives(order: seq<FieldName>, key: string, a: string, b: string,
                                 e: E.Employee, f: E.Formatters)
    requires key == "assinatura" || key == "carimbo"
    ensures ApplyRules(a + Brace(key) + b, KeyRules(FieldMap(order, e, f)))
         == ApplyRules(a, KeyRules(FieldMap(order, e, f))) + Brace(key)
            + ApplyRules(b, KeyRules(FieldMap(order, e, f)))
  {
    ImageKeysAreLowerCase(key);
    forall i | 0 <= i < |order| ensures Key(order[i]) != key {
      ImageKeysAreNoFieldNames(order[i]);
    }
    UnlistedPlaceholderSurvives(order, key, a, b, e, f);
  }

  lemma ImageKeysAreLowerCase(key: string)
    requires key == "assinatura" || key == "carimbo"
    ensures Lower(key) == key && BraceFree(key)
  {
  }
}
