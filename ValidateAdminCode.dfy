/**
 * The `validate-admin-code` function: it grants the `admin` role to a user who presents the
 * access code configured on the server. The request, the configured code and the outcome of
 * the role update are inputs; the model is the sequence of guards that picks the reply.
 */
module ValidateAdminCode {
  import opened Wrappers
  import opened JsValues

  /** The JSON reply: the HTTP status, `success`, and the `error` or `message` text. */
  datatype Reply = Reply(status: nat, success: bool, text: string)

  const MissingFields := "userId e accessCode são obrigatórios"
  const NotConfigured := "Configuração do servidor incompleta"
  const WrongCode := "Código de acesso inválido"
  const UpdateFailed := "Erro ao atualizar permissões"
  const Granted := "Acesso admin concedido com sucesso"

  /**
   * The decision, with the role update it asks for. `userId` and `accessCode` are the fields
   * of the request body, `adminCode` is `ADMIN_ACCESS_CODE` (`None` when it is unset), and
   * `updateRole(userId)` is the error the `user_roles` update reports, if any. The first
   * component is the user whose role is set to `admin`, when the update is issued at all.
   */
  function Validate(userId: Value, accessCode: Value, adminCode: Option<string>,
                    updateRole: Value -> Option<string>): (r: (Option<Value>, Reply))
    ensures r.1.success <==> r.1.status == 200
    ensures r.0.Some? ==> r.0.value == userId
  {
    if !Truthy(userId) || !Truthy(accessCode) then (None, Reply(400, false, MissingFields))
    else if adminCode.None? || adminCode.value == "" then (None, Reply(500, false, NotConfigured))
    else if accessCode != Str(adminCode.value) then (None, Reply(403, false, WrongCode))
    else if updateRole(userId).Some? then (Some(userId), Reply(500, false, UpdateFailed))
    else (Some(userId), Reply(200, true, Granted))
  }

  /** The code the server is configured with, when it is set and not empty. */
  predicate Configured(adminCode: Option<string>) {
    adminCode.Some? && adminCode.value != ""
  }

  /** The presented code is, strictly, the configured one. */
  predicate ExactMatch(accessCode: Value, adminCode: Option<string>) {
    Configured(adminCode) && accessCode == Str(adminCode.value)
  }

  /** A missing or empty `userId` or `accessCode` is refused with 400 before anything else is looked at. */
  lemma MissingFieldsFirst(userId: Value, accessCode: Value, adminCode: Option<string>,
                           updateRole: Value -> Option<string>)
    requires !Truthy(userId) || !Truthy(accessCode)
    ensures Validate(userId, accessCode, adminCode, updateRole) == (None, Reply(400, false, MissingFields))
  {
  }

  /** With both fields given, an unset or empty server code is a 500, whatever code is presented. */
  lemma UnconfiguredIsServerError(userId: Value, accessCode: Value, adminCode: Option<string>,
                                  updateRole: Value -> Option<string>)
    requires Truthy(userId) && Truthy(accessCode) && !Configured(adminCode)
    ensures Validate(userId, accessCode, adminCode, updateRole) == (None, Reply(500, false, NotConfigured))
  {
  }

  /** A code that differs from the configured one, in value or in type, is a 403 with no update. */
  lemma WrongCodeForbidden(userId: Value, accessCode: Value, adminCode: Option<string>,
                           updateRole: Value -> Option<string>)
    requires Truthy(userId) && Truthy(accessCode) && Configured(adminCode) && !ExactMatch(accessCode, adminCode)
    ensures Validate(userId, accessCode, adminCode, updateRole) == (None, Reply(403, false, WrongCode))
  {
  }

  /** The role is updated exactly when a user id is given and the code matches. */
  lemma UpdateOnlyOnMatch(userId: Value, accessCode: Value, adminCode: Option<string>,
                          updateRole: Value -> Option<string>)
    ensures Validate(userId, accessCode, adminCode, updateRole).0.Some?
            <==> Truthy(userId) && ExactMatch(accessCode, adminCode)
  {
  }

  /**
   * `success: true` comes only from the last branch: an exact match whose update reported no
   * error; a failed update after a match is a 500.
   */
  lemma SuccessOnlyWhenGranted(userId: Value, accessCode: Value, adminCode: Option<string>,
                               updateRole: Value -> Option<string>)
    ensures var r := Validate(userId, accessCode, adminCode, updateRole).1;
            (r.success <==> Truthy(userId) && ExactMatch(accessCode, adminCode) && updateRole(userId).None?)
            && (r.success ==> r == Reply(200, true, Granted))
            && ((Truthy(userId) && ExactMatch(accessCode, adminCode) && updateRole(userId).Some?)
                  ==> r == Reply(500, false, UpdateFailed))
  {
  }
}
