# api_odonto_silvio in Dafny

A model of the decision and mapping logic in the Odontogroup integration
service. The service reads beneficiaries, companies and departments from an
Oracle database and sends them to the dental-plan partner's REST API. It also
keeps the partner's access token up to date. The model covers:

- **Beneficiary payloads** (`BeneficiarioPayload`, `Grouping`,
  `BeneficiarioDispatch`, `BeneficiarioDispatchRun`, `AuditLog`): the field helpers `get`, `onlyDigits`
  and `trunc`; grouping rows by titular; the `buildDadosFromGrupo` and
  `buildDadosNovoDependente` record builders; the preview run; the dispatch
  run, which sends a family's dependents through `NovoDependente` when the
  partner says the titular is already registered; and the audit rows.
- **Department reconciliation** (`Departamentos`, `DepartRemote`,
  `VerificaDepartamentos`, `CorrigeDepartamentos`): `odonto_depart` is a map
  from CNPJ to an optional id (MERGE and insert-if-absent). The model covers
  the POST/GET decision flow and counters, the verification buckets, and the
  ignore / no-op / update correction loop.
- **CPF verification** (`VerificaCpf`): the lookup, the `statusApi`
  classification and the per-CPF cache loop.
- **Company payloads** (`CompanyPayload`, `OdontogroupSend`): command-line
  defaults, the row filter, `cd_empresa`, the file timestamp, lookup
  precedence, the retry after a 401, and the success/failure partition.
- **Tokens** (`TokenService`, `EnvToken`, `LoginHom`): the in-memory token
  cache, the `.env` key upsert, the base64url normalisation and the
  `dd/mm/yyyy, HH:MM:SS` date.
- **Beneficiary inclusion** (`BeneficiarioModel`, `BeneficiarioController`,
  `BeneficiarioBatch`):
  the SQL code tables, the two query variants and the result shaping; then
  the responsible party, department, contacts and dependents of an
  inclusion request, and the per-beneficiary batch results.

The model does no I/O. HTTP answers, database rows and answers, environment
variables, the clock and the JSON encoder are inputs: data values or function
parameters. A JavaScript value is the datatype `JsValues.JsVal` (undefined,
null, booleans, integer numbers, `NaN`, strings, arrays, objects), with
`Truthy` for `||` and `Nullish` for `??`. Strings and numbers stay distinct,
so `'1' !== 1` holds as it does in JavaScript. A database row is a
`map<string, JsVal>`. Every sequential `await` loop is a left fold over a
sequence.

Shared modules: `Wrappers` (`Option`, `Result`), `Seqs` (map, filter, count,
find-first, group-by), `Text` (digits, trimming, splitting, decimal
rendering), `JsValues` and `Http` (an axios outcome: resolved with a reply, or
rejected with an optional response).

Where a documentation comment and the code disagree, the model follows the
code. One example: the `idDepartamento` comment speaks of a company field,
while the code reads `depID[0]`.

## Model

| member | source | states |
|---|---|---|
| `JsValues.OnlyDigits` | src/controllers/GeraApenasJsonBeneficiarios.js:39-41 | the result holds only digits; null, undefined and '' give ''; on a string it keeps exactly that string's digits in order |
| `JsValues.OnlyDigitsIdempotent` | src/controllers/GeraApenasJsonBeneficiarios.js:39-41 | stripping non-digits a second time changes nothing |
| `JsValues.Trunc` | src/controllers/GeraApenasJsonBeneficiarios.js:43-45 | the result is at most `len` long, and a text that already fits comes back whole |
| `JsValues.TruncIsPrefix` | src/controllers/GeraApenasJsonBeneficiarios.js:43-45 | the result is a prefix of the stringified input, of length min(len, input length); a falsy input gives '' |
| `JsValues.GetIsFirstDefined` | src/controllers/GeraApenasJsonBeneficiarios.js:28-37 | `get` returns the value under the first candidate key (each name as given, upper-cased, lower-cased) that is not undefined, a stored null included; null when none is defined |
| `BeneficiarioPayload.ColIsGet` | src/controllers/GeraApenasJsonBeneficiarios.js:28-37 | the single-name lookup the builders use is `get` with one name |
| `BeneficiarioPayload.ExtractRows` | src/controllers/GeraApenasJsonBeneficiarios.js:19-26 | a falsy driver result gives no rows; rows come only from a truthy result |
| `BeneficiarioPayload.ExtractRowsShapes` | src/controllers/GeraApenasJsonBeneficiarios.js:19-26 | the three driver shapes (plain array, `{rows}`, `[rows, meta]`) all yield the same rows |
| `BeneficiarioPayload.ParceiroCodigo` | src/controllers/GeraApenasJsonBeneficiarios.js:174-179 | the partner code is never the homologation code 71709; a missing code gives 72692; any other code passes through as a number |
| `BeneficiarioPayload.ParceiroCodigoCases` | src/controllers/GeraApenasJsonBeneficiarios.js:174-179 | the code is either the default 72692 or the row's own code, which is then not 71709 |
| `BeneficiarioPayload.NumeroEndereco` | src/controllers/GeraApenasJsonBeneficiarios.js:203-208 | the house number is never empty: the trimmed text, or '0' when that is blank |
| `BeneficiarioPayload.NumeroEnderecoIsFixed` | src/controllers/GeraApenasJsonBeneficiarios.js:203-208 | the house number has no surrounding blanks |
| `BeneficiarioPayload.NumeroEnderecoIdempotent` | src/controllers/GeraApenasJsonBeneficiarios.js:203-208 | normalising an already normalised number changes nothing |
| `BeneficiarioPayload.BuildEndereco` | src/controllers/GeraApenasJsonBeneficiarios.js:226-237 | the CEP is the digits of the row's `cep`, or null when it has none; the number is `NumeroEndereco` of the row's `numero` and never empty; with CEP data the street and state name are its `Logradouro` and `Uf`, and the state, street type, district and town are `Number` of its `IdUf`, `IdTipoLogradouro`, `IdBairro` and `IdMunicipio`; without it those four are null and the names '' |
| `BeneficiarioPayload.BuildContatos` | src/controllers/GeraApenasJsonBeneficiarios.js:218-224 | at most one contact, present exactly when both `contato` and `tipo_contato` are truthy, carrying those two values |
| `BeneficiarioPayload.InclusaoTitular` | src/controllers/GeraApenasJsonBeneficiarios.js:213-216 | the inclusion date is `inclusao` when truthy, else `dinclusua` when truthy, else `dataAssinaturaContrato`; it is truthy exactly when one of the three is |
| `BeneficiarioPayload.BuildVida` | src/controllers/GeraApenasJsonBeneficiarios.js:241-266 | every life has plan 124, plan value '6.59', the fixed grace and employee codes, names of at most 70 characters, and the digit-only CPF |
| `BeneficiarioPayload.BuildVidaFields` | src/controllers/GeraJsonBeneficiarios_bkp.js:434-459 | the names are prefixes of the row's names and the CPF is digits; the date is `inclusao` when truthy, else the variant's dependent column (`sysdate` when dispatching, `dinclusua` in the preview) when truthy, else the titular's date |
| `BeneficiarioPayload.BuildVidas` | src/controllers/GeraApenasJsonBeneficiarios.js:241-266 | one life per group row, in the rows' order |
| `BeneficiarioPayload.BuildVidasAppend` | src/controllers/GeraApenasJsonBeneficiarios.js:241-266 | building lives distributes over concatenation of row lists |
| `BeneficiarioPayload.BuildParceiro` | src/controllers/GeraApenasJsonBeneficiarios.js:174-186 | the partner block uses the remapped code, with billing type 1, adherent 0 and maximum fee id '0' when the row has none |
| `BeneficiarioPayload.BuildResponsavel` | src/controllers/GeraApenasJsonBeneficiarios.js:268-297 | the responsible party has the digit-only CPF, matricula 'MAT-' + CPF, a name of at most 70 characters, the built address and contacts, due day '01', and contract 27543 when the row has none |
| `BeneficiarioPayload.BuildDados` | src/controllers/GeraApenasJsonBeneficiarios.js:166-300 | a missing titular is an error with the variant's message; otherwise the payload is the partner, responsible party and lives built from the titular and the group |
| `BeneficiarioPayload.TitularFirstWhenPrepended` | src/controllers/GeraApenasJsonBeneficiarios.js:511-514 | after the fetched titular is prepended, it is the first life and its CPF equals the responsible party's; the others follow in order |
| `BeneficiarioPayload.DataAssinaturaFamilia` | src/controllers/GeraJsonBeneficiarios_bkp.js:506-509 | the family's signature date is `dataAssinaturaContrato` when truthy, else `inclusao` when truthy, else `sysdate`; it is truthy exactly when one of the three is |
| `BeneficiarioPayload.BuildNovoDependente` | src/controllers/GeraJsonBeneficiarios_bkp.js:495-559 | exactly one dependent and no dependent contacts; the responsible code is the numeric matricula; the partner code is never 71709; the dependent has the digit-only CPF, plan 124 and a name of at most 70 characters |
| `BeneficiarioPayload.NovoDependenteMatchesGroupLife` | src/controllers/GeraJsonBeneficiarios_bkp.js:529-557 | the single dependent is the life the group builder makes for the same row, apart from its contract date |
| `Grouping.GroupKey` | src/controllers/GeraApenasJsonBeneficiarios.js:482 | the key is the row's `titular` when truthy, and its `nnumeusua` otherwise |
| `Grouping.GroupRowsPartitions` | src/controllers/GeraApenasJsonBeneficiarios.js:480-488 | the groups have distinct keys; each holds exactly the rows with its key, in input order; every row's key has a group |
| `Grouping.RowInExactlyOneGroup` | src/controllers/GeraApenasJsonBeneficiarios.js:480-488 | a row is in a group exactly when the group's key is the row's key |
| `Grouping.FindTitular` | src/controllers/GeraApenasJsonBeneficiarios.js:495-497 | finds the first row with `tipo_usuario` 1, and fails only when there is none |
| `Grouping.FetchTitular` | src/controllers/GeraApenasJsonBeneficiarios.js:141-163 | the titular lookup succeeds exactly for a truthy id the database knows |
| `Grouping.ResolveGroup` | src/controllers/GeraApenasJsonBeneficiarios.js:493-515 | a group keeps its rows when it holds a titular; otherwise the fetched titular is prepended; the group is skipped only when both fail |
| `Grouping.FamiliesAreResolvedGroups` | src/controllers/GeraApenasJsonBeneficiarios.js:493-515 | the families are exactly the groups that resolve, one per such group |
| `Grouping.S4eTokenOrPlaceholder` | src/controllers/GeraApenasJsonBeneficiarios.js:477 | the payload token is never empty, and is the configured one when set |
| `Grouping.FamilyKeysDistinct` | src/controllers/GeraApenasJsonBeneficiarios.js:480-515 | since the `grupos` Map has one entry per key, no two families share a key |
| `Grouping.ResolvedGroupHasFamily` | src/controllers/GeraApenasJsonBeneficiarios.js:493-515 | every group that resolves has its family among the run's families |
| `Grouping.FamilyRowOwnKey` | src/controllers/GeraApenasJsonBeneficiarios.js:480-515 | a family holds only its titular and input rows whose key is the family's |
| `Grouping.RowInItsFamily` | src/controllers/GeraApenasJsonBeneficiarios.js:480-515 | an input row whose key resolves (its rows hold a titular or the database knows one) is in the family of its key |
| `Grouping.FamiliesOfRows` | src/controllers/GeraApenasJsonBeneficiarios.js:480-515 | stated on the input rows: one family per resolving group, distinct keys, no foreign rows, and no resolving row lost |
| `Grouping.FamilyDadosHasLife` | src/controllers/GeraApenasJsonBeneficiarios.js:525 | a family's body has a life built from each of its rows, under the family's titular |
| `Grouping.PreviewRun` | src/controllers/GeraApenasJsonBeneficiarios.js:477-533 | as many preview entries as groups that resolve, each under the configured token or its placeholder, with distinct keys, and every input row whose key resolves has its life in the entry of its key |
| `AuditLog.MessageIsPrefix` | src/controllers/GeraJsonBeneficiarios_bkp.js:61 | the stored message is the text itself when it fits 4000 characters, else its first 4000 |
| `AuditLog.StatusColumnAsWritten` | src/controllers/GeraJsonBeneficiarios_bkp.js:88 | the status column is null for a falsy status and its `Number` value otherwise |
| `AuditLog.StatusColumnAsWrittenStoresNaN` | src/controllers/GeraJsonBeneficiarios_bkp.js:88 | the 'no-response' marker becomes `NaN` in the numeric column |
| `AuditLog.StatusColumn` | src/controllers/VerificaCpfOdonto.js:164 | the status column is always a number or null |
| `AuditLog.StatusColumnAsWrittenHolds` | src/controllers/VerificaCpfOdonto.js:164 | the written column is a number, null or `NaN`, `NaN` exactly for a truthy status that does not read as a number, and the intended column is it with null in place of `NaN` |
| `AuditLog.StatusColumnAgrees` | src/controllers/VerificaCpfOdonto.js:164 | the corrected column differs from the written one only where that one stores `NaN`; 'no-response' stores null; a real status is kept |
| `Http.ErrorStatus` | src/controllers/VerificaCpfOdonto.js:212 | a failed call's status is the response status, or 'no-response' when there is none |
| `Http.ErrorData` | src/controllers/VerificaCpfOdonto.js:213 | a failed call's body is the response's truthy body, else an empty object |
| `BeneficiarioDispatch.Record` | src/controllers/GeraJsonBeneficiarios_bkp.js:50-100 | an audit row keeps the send status and the person, and a message prefix of at most 4000 characters; its HTTP status column is a number, null, or `NaN` exactly when a truthy status does not read as a number, and is otherwise the intended column |
| `BeneficiarioDispatch.DependentContexto` | src/controllers/GeraJsonBeneficiarios_bkp.js:563-649 | a dependent's audit context has its own CPF and the titular's department id |
| `BeneficiarioDispatch.SendVida` | src/controllers/GeraJsonBeneficiarios_bkp.js:232-309 | the AssociadoPJ send records OK_VIDA or ERRO_VIDA and returns a truthy body: the partner's body, or the error body; a call without a response stores `NaN` as its status |
| `BeneficiarioDispatch.SendDependent` | src/controllers/GeraJsonBeneficiarios_bkp.js:563-649 | the NovoDependente send records OK_DEP or ERRO_DEP; a refused call keeps the response's status, and one without a response stores `NaN` |
| `BeneficiarioDispatch.TitularJaCadastrado` | src/controllers/GeraJsonBeneficiarios_bkp.js:894-898 | the titular is already registered exactly when the result message mentions it or the result code is 3; a message that is neither string nor array makes `includes` throw |
| `BeneficiarioDispatch.MatriculaFromResponse` | src/controllers/GeraJsonBeneficiarios_bkp.js:313-359 | a matricula is found only in the first element of a non-empty array answer; a failed call gives null |
| `BeneficiarioDispatch.MatriculaRoundTrip` | src/controllers/GeraJsonBeneficiarios_bkp.js:337-359 | a matricula placed in the first element is read back |
| `BeneficiarioDispatch.StripTrailingSlashes` | src/controllers/GeraJsonBeneficiarios_bkp.js:583-584 | the base URL loses exactly its trailing slashes, and nothing else |
| `BeneficiarioDispatch.StripTrailingSlashesIdempotent` | src/controllers/GeraJsonBeneficiarios_bkp.js:583-584 | stripping twice is stripping once |
| `BeneficiarioDispatch.NovoDependenteUrl` | src/controllers/GeraJsonBeneficiarios_bkp.js:583-584 | the NovoDependente URL is a base without a trailing slash, the path and the token |
| `BeneficiarioDispatch.SendDependents` | src/controllers/GeraJsonBeneficiarios_bkp.js:934-947 | one payload entry and one audit row per dependent |
| `BeneficiarioDispatchRun.FamilyStepShape` | src/controllers/GeraJsonBeneficiarios_bkp.js:894-947 | dependents follow the AssociadoPJ entry only when the titular is registered and a matricula was found, and then they all follow |
| `BeneficiarioDispatchRun.DispatchFamilyShape` | src/controllers/GeraJsonBeneficiarios_bkp.js:880-947 | a family's first entry is its AssociadoPJ payload; every later entry is a NovoDependente of the same titular, sent only when already-registered and matricula hold |
| `BeneficiarioDispatchRun.DependentsSentInOrder` | src/controllers/GeraJsonBeneficiarios_bkp.js:915-947 | with a matricula, exactly one NovoDependente goes out per row whose `tipo_usuario` is not 1, in group order |
| `BeneficiarioDispatchRun.DependentsAreNonTitularRows` | src/controllers/GeraJsonBeneficiarios_bkp.js:923-925 | a group row is sent as a dependent exactly when it is not a titular row |
| `BeneficiarioDispatchRun.NoDependentsWithoutMatricula` | src/controllers/GeraJsonBeneficiarios_bkp.js:900-920 | without the registered answer or without a matricula, the family yields only its AssociadoPJ entry |
| `BeneficiarioDispatchRun.DispatchRun` | src/controllers/GeraJsonBeneficiarios_bkp.js:811-839 | no rows means nothing is done; a missing APIV3 token stops the run before any send |
| `BeneficiarioDispatchRun.LogFile` | src/controllers/GeraJsonBeneficiarios_bkp.js:950-960 | the payload file is written exactly when the run ended without error and recorded some payload |
| `BeneficiarioDispatchRun.DispatchRunOrder` | src/controllers/GeraJsonBeneficiarios_bkp.js:880-947 | in the whole run, each NovoDependente entry comes after its own family's AssociadoPJ entry, and every entry has its audit row |
| `Departamentos.FirstDefinedIsFirst` | src/controllers/GeraDepartamentos.js:148-166 | a body field is the value under the first candidate key that is not undefined |
| `Departamentos.MapRowToBody` | src/controllers/GeraDepartamentos.js:148-166 | every field is the first candidate column that is not `undefined`, read by the same left fold as the source's `get`; a nullish name passes through, any other becomes a `Str` prefix of its text of length min(70, its length) |
| `Departamentos.FirstDefinedIsReduce` | src/controllers/GeraDepartamentos.js:150-151 | the recursive first-defined lookup equals the source's left fold over the candidate keys |
| `Departamentos.MapRowToBodyFields` | src/controllers/GeraDepartamentos.js:148-166 | every field of the body, and the name's source, is taken from one of its candidate columns: that column is defined and every earlier candidate is `undefined`, or all are `undefined` |
| `Departamentos.Upsert` | src/controllers/GeraDepartamentos.js:168-190 | with an id, the CNPJ maps to it whether or not it was present; without one, the CNPJ is added only when absent; other CNPJs never change |
| `Departamentos.UpsertIdempotent` | src/controllers/GeraDepartamentos.js:168-190 | repeating the same upsert changes nothing |
| `Departamentos.DepIdOf` | src/controllers/GeraDepartamentos.js:211 | the id is `depid` when not nullish, else `depId` when not nullish, else `DepId`; it is nullish exactly when all three are |
| `Departamentos.ApiOutcome` | src/controllers/GeraDepartamentos.js:194-252 | a call is ok exactly when it resolved; a resolved call reports its HTTP status, its body (or `{}`) and the id `DepIdOf` finds in it, found exactly when that id is truthy; a rejected call has no id, carries the error message, and the status and body of its response when there is one |
| `Departamentos.JaExiste` | src/controllers/GeraDepartamentos.js:314-317 | "already exists" holds exactly for status 400 with the partner's message in a string or array; a message of any other truthy shape throws |
| `Departamentos.CleanCnpj` | src/controllers/GeraDepartamentos.js:48 | the log file key is never empty: the CNPJ digits, or 'sem_cnpj' |
| `Departamentos.StepCounts` | src/controllers/GeraDepartamentos.js:291-304 | an ok POST with a truthy id upserts that id and counts one success without a GET; each row counts exactly once; other CNPJs keep their entries |
| `Departamentos.StepGets` | src/controllers/GeraDepartamentos.js:307-351 | a GET is issued only after a 400 whose message says the department already exists |
| `Departamentos.Run` | src/controllers/GeraDepartamentos.js:260-271 | without base URL or token, or without rows, nothing happens |
| `Departamentos.LoopCountsAndFrame` | src/controllers/GeraDepartamentos.js:276-366 | successes plus errors equal the rows that have a CNPJ, so at most the row count; CNPJs of no row stay as they were |
| `DepartRemote.ReadStored` | src/controllers/VerificaDepartamentos.js:103-104 | the local id is `ID_ODONTO` when not nullish, else `id_odonto` when not nullish, else null; the CNPJ is `CNPJ` when not nullish, else `cnpj` |
| `DepartRemote.CnpjLocal` | src/controllers/VerificaDepartamentos.js:48 | the local CNPJ is digits only, and a digit string is kept as it is |
| `DepartRemote.DepartamentoUrl` | src/controllers/VerificaDepartamentos.js:74-80 | the lookup URL is the base, the department path, the company code `Empresa` gives, `&cnpj=` and the CNPJ, each in its place |
| `DepartRemote.Empresa` | src/controllers/VerificaDepartamentos.js:74 | the company code is `ODONTO_EMPRESA_CODE` when set and non-empty, else '27552' |
| `DepartRemote.Fetch` | src/controllers/VerificaDepartamentos.js:71-91 | an unconfigured lookup fails with the configuration message; a lookup succeeds exactly when the call resolved with a body; a rejection keeps the response status |
| `VerificaDepartamentos.Classify` | src/controllers/VerificaDepartamentos.js:102-166 | no CNPJ means skipped; a failed call is an API error; SEM_DADOS_API exactly when neither remote id nor remote CNPJ; DIVERGENCIA exactly when the CNPJs differ, the ids differ or the local id is missing, with those three flags |
| `VerificaDepartamentos.ConsistentMeans` | src/controllers/VerificaDepartamentos.js:136-154 | a row is ok exactly when the CNPJs agree, the local id is present, and the remote id is absent or has the same text |
| `VerificaDepartamentos.Verdicts` | src/controllers/VerificaDepartamentos.js:102-109 | one verdict per local row, from that row's own lookup |
| `VerificaDepartamentos.Run` | src/controllers/VerificaDepartamentos.js:169-176 | the summary counts the local rows, the rows found consistent, and the inconsistent and failed rows, whose totals are the lengths of the two returned lists |
| `VerificaDepartamentos.RunAccountsForEveryRow` | src/controllers/VerificaDepartamentos.js:102-167 | every row with a CNPJ lands in exactly one of ok, inconsistentes and errosApi |
| `VerificaDepartamentos.UnconfiguredRunFailsEveryRow` | src/controllers/VerificaDepartamentos.js:76-78 | without base URL or token, every row with a CNPJ is an API error with the configuration message |
| `CorrigeDepartamentos.Decide` | src/controllers/CorrigeDepartamentos.js:96-142 | a row is ignored exactly when the remote id is falsy, the remote CNPJ is empty or the CNPJs differ; left alone exactly when the local id is truthy with the same text; otherwise updated to the remote id with the before/after pair |
| `CorrigeDepartamentos.SetId` | src/controllers/CorrigeDepartamentos.js:130-135 | the UPDATE changes the id of exactly the rows with that CNPJ |
| `CorrigeDepartamentos.StepTable` | src/controllers/CorrigeDepartamentos.js:129-142 | the table changes, and an update is recorded, only for a decided update the database accepted |
| `CorrigeDepartamentos.Run` | src/controllers/CorrigeDepartamentos.js:155-164 | the table keeps its rows and CNPJs; the totals are the list lengths and the local row count |
| `CorrigeDepartamentos.LoopKeepsShape` | src/controllers/CorrigeDepartamentos.js:96-154 | the loop never adds, removes or re-keys a row |
| `CorrigeDepartamentos.LoopCounts` | src/controllers/CorrigeDepartamentos.js:96-154 | each row lands in at most one of atualizados, ignorados and erros |
| `CorrigeDepartamentos.SettledRowsNoUpdates` | src/controllers/CorrigeDepartamentos.js:124-127 | rows that already hold their remote id cause no update |
| `CorrigeDepartamentos.RerunUpdatesNothing` | src/controllers/CorrigeDepartamentos.js:125-135 | a second run against unchanged remote data updates nothing |
| `VerificaCpf.Consult` | src/controllers/VerificaCpfOdonto.js:189-223 | an error exactly when the call failed; found exactly when the body is a non-empty array; the status and body are the reply's, or the error status and body |
| `VerificaCpf.StatusApi` | src/controllers/VerificaCpfOdonto.js:286-290 | ERRO exactly on error, else ENCONTRADO exactly when found, else NAO_ENCONTRADO |
| `VerificaCpf.StatusOfOutcome` | src/controllers/VerificaCpfOdonto.js:197-222 | ENCONTRADO exactly for a non-empty array answer, ERRO exactly for a failed call |
| `VerificaCpf.Record` | src/controllers/VerificaCpfOdonto.js:130-168 | the audit row keeps the CPF and status and a message of at most 4000 characters; its HTTP status column is a number, null, or `NaN` exactly when a truthy status does not read as a number, and is otherwise the intended column |
| `VerificaCpf.VerifyRun` | src/controllers/VerificaCpfOdonto.js:237-245 | no rows means nothing is done; a missing token stops the run before any call |
| `VerificaCpf.VerifyRunMatchesReference` | src/controllers/VerificaCpfOdonto.js:248-309 | the run writes, per row with a CPF, the record an uncached lookup would give; the API is called once per distinct CPF and for no other |
| `VerificaCpf.SameCpfSameResult` | src/controllers/VerificaCpfOdonto.js:261-278 | two rows with the same CPF get the same status, HTTP status and message |
| `VerificaCpf.NoBaseStopsAtFirstCpf` | src/controllers/VerificaCpfOdonto.js:179-180 | without a base URL no record is written and no call made, and the run fails exactly when some row has a CPF |
| `CompanyPayload.IndexOf` | scripts/generate-and-send-odontogroup.js:18 | the first position of the flag, or -1 exactly when it is absent |
| `CompanyPayload.LimitOrNull` | scripts/company/company-json-all.js:9-13 | the limit is a positive number or null |
| `CompanyPayload.QueryLimit` | scripts/company/company-json-all.js:36 | the query limit is positive, and 10 when no limit was given |
| `CompanyPayload.LimitsAgree` | scripts/generate-and-send-odontogroup.js:19 | the sending script's limit is the generating script's limit after its default |
| `CompanyPayload.LimitFromDecimal` | scripts/company/company-json-all.js:9-13 | `--limit n` for a positive n gives n in both scripts |
| `CompanyPayload.GetArg` | scripts/generate-and-send-odontogroup.js:18 | the value after the flag when it exists, is non-empty and is not another flag; otherwise the default |
| `CompanyPayload.DelayMs` | scripts/generate-and-send-odontogroup.js:21 | without `--delay` the delay is 100; otherwise it is `Number` of the value after it, unless that is 0 or NaN, which gives 100 |
| `CompanyPayload.DelayFromDecimal` | scripts/generate-and-send-odontogroup.js:21 | the first `--delay` followed by the decimal text of a positive n gives a delay of n, whatever arguments come before or after |
| `CompanyPayload.NumberOrNull` | scripts/company/company-json-all.js:54-62 | a nullish value gives null and any other its `Number` |
| `CompanyPayload.BodyOf` | scripts/company/company-json-all.js:48-62 | `cd_empresa` is null exactly when the trimmed `Cd_empresa ?? CD_EMPRESA` is empty, else its `Number`; the name is trimmed, the CNPJ digit-only, `cd_orgao` and `cd_grupo` null, and type and class are `NumberOrNull` of the lower-case column, else the upper-case one |
| `CompanyPayload.CdEmpresaFromDecimal` | scripts/company/company-json-all.js:48-55 | a `Cd_empresa` holding the decimal text of n gives `cd_empresa` n |
| `CompanyPayload.Payloads` | scripts/company/company-json-all.js:44-62 | never more payloads than rows; each has a non-empty name, a 14-digit CNPJ and null organ and group |
| `CompanyPayload.PayloadsAreValidRows` | scripts/company/company-json-all.js:44-62 | the payloads are exactly the valid rows, mapped in input order |
| `CompanyPayload.NomeIsTrimmed` | scripts/company/company-json-all.js:47 | the payload name has no surrounding blanks |
| `CompanyPayload.Generate` | scripts/company/company-json-all.js:38-68 | no rows or no valid row is an error; otherwise the non-empty payload list |
| `CompanyPayload.Timestamp` | scripts/company/company-json-all.js:72 | the stamp has at most 14 characters and none of '-', ':', 'T', '.', 'Z' |
| `CompanyPayload.TimestampOfIso` | scripts/company/company-json-all.js:72 | for an ISO instant the stamp is yyyyMMddHHmmss |
| `CompanyPayload.MapCdEmpresa` | scripts/company/company-json-un.js:33-39 | '3' gives 27552, '4' gives 27543; any other nature gives `Number` of the configured code when one is set, else 27552 |
| `CompanyPayload.MapCdEmpresaFromDecimal` | scripts/company/company-json-un.js:33-39 | a configured code written as the decimal text of n gives n for any nature other than '3' and '4' |
| `CompanyPayload.MapCdEmpresaCodes` | scripts/company/company-json-un.js:33-39 | unconfigured, the company code is 27552 or 27543 |
| `CompanyPayload.ChooseLookup` | scripts/company/company-json-un.js:104-114 | a non-empty CNPJ argument that is not 14 digits is rejected; otherwise look up by CNPJ, else by nnumeusua, else the first active company |
| `CompanyPayload.UnRun` | scripts/company/company-json-un.js:100-138 | a bad CNPJ argument is an error; an emitted payload has a non-empty name, a 14-digit CNPJ, null organ and group, and a numeric company code |
| `OdontogroupSend.Login` | scripts/generate-and-send-odontogroup.js:88-93 | login succeeds exactly when the answer has a truthy token |
| `OdontogroupSend.FailureOf` | scripts/generate-and-send-odontogroup.js:116-121 | a failure records index and body, and status 0 with the message when no response came |
| `OdontogroupSend.SendAsWritten` | scripts/generate-and-send-odontogroup.js:106-123 | each payload adds exactly one entry: a rejected POST a failure with its status and message, a resolved non-401 POST a success with its index, body, status and data; only a resolved 401 logs in again |
| `OdontogroupSend.AsWrittenNeverLogsInAgain` | scripts/generate-and-send-odontogroup.js:109-113 | as written, no answer ever causes a second login |
| `OdontogroupSend.AsWrittenUnauthorizedIsFailure` | scripts/generate-and-send-odontogroup.js:109-113 | as written, a 401 is recorded as a failure with status 401 and no retry |
| `OdontogroupSend.Send` | scripts/generate-and-send-odontogroup.js:106-123 | each payload adds exactly one entry: without a 401 a rejection is a failure and a resolution a success with its status and data; a 401 logs in once more |
| `OdontogroupSend.SendRetriesOnce` | scripts/generate-and-send-odontogroup.js:109-113 | a 401 causes exactly one new login and, when it succeeds, one retry of the same body with the new token |
| `OdontogroupSend.Retry` | scripts/generate-and-send-odontogroup.js:109-123 | a failed new login adds one failure and nothing else; a successful one stores the new token, POSTs once more, and adds a success or a failure from that answer |
| `OdontogroupSend.SendAgreesOtherwise` | scripts/generate-and-send-odontogroup.js:109-114 | on any other answer the corrected send is the written one, with no new login |
| `OdontogroupSend.SendBy` | scripts/generate-and-send-odontogroup.js:106-123 | under either loop body, one payload adds exactly one entry with its index to the end of one list and leaves the other alone |
| `OdontogroupSend.SendAllPartitions` | scripts/generate-and-send-odontogroup.js:106-123 | for the loop as written and for the corrected one, every payload index 1..n is in exactly one of successes and failures, each list in increasing order |
| `OdontogroupSend.AsWrittenLoopKeepsLogins` | scripts/generate-and-send-odontogroup.js:106-123 | as written, under axios's default settling, the loop makes no login at all |
| `OdontogroupSend.LoopsAgreeWithout401` | scripts/generate-and-send-odontogroup.js:109-114 | when no POST is refused with 401, the corrected loop produces exactly the state of the loop as written |
| `OdontogroupSend.Run` | scripts/generate-and-send-odontogroup.js:102-123 | for the script as written (`AsWritten`) or corrected: a run proceeds only when payloads exist and the first login has a token, a token-less login fails with 'Login sem token', and the finished loop's entries partition the payload indices |
| `OdontogroupSend.RunVersions` | scripts/generate-and-send-odontogroup.js:102-123 | the script as written logs in exactly once per run under axios's default settling; the corrected script differs from it only when some POST is refused with 401 |
| `LoginHom.Pad2` | scripts/login-token/login-hom.js:12 | the result is all digits, at least two of them, reads back as the number, and is exactly two for numbers below 100 |
| `LoginHom.FormatPtBRReadsBack` | scripts/login-token/login-hom.js:13-22 | the text has the layout dd/mm/yyyy, HH:MM:SS and every field reads back as the date's value, the month one more than `getMonth()` |
| `LoginHom.ToBase64` | scripts/login-token/login-hom.js:24-28 | '-' becomes '+', '_' becomes '/', everything else stays, and 0 to 3 '=' pad the length to a multiple of 4 |
| `LoginHom.ToBase64RoundTrip` | scripts/login-token/login-hom.js:24-28 | dropping the padding and swapping back gives the base64url text again |
| `LoginHom.TokenOf` | scripts/login-token/login-hom.js:59-60 | the token is `token` when truthy, else `Token` when truthy, else the body itself when it is a string, else '' |
| `LoginHom.ExpiresIn` | scripts/login-token/login-hom.js:68-82 | for a string token with at least two dot-separated parts, no decoded `exp` gives '', an Invalid Date gives `NaN/NaN/NaN, NaN:NaN:NaN` and a date `d` gives `formatPtBR(d)`; any other token gives '' |
| `LoginHom.Run` | scripts/login-token/login-hom.js:39-96 | no credentials means no request; a report exactly for a 2xx answer whose token is a non-empty string, holding that token and `ExpiresIn` of it; a falsy token is 'token not found', a truthy non-string token fails in the file write; any other status is an HTTP error |
| `LoginHom.JwtReport` | scripts/login-token/login-hom.js:59-96 | a 2xx answer `{ token: h.p.s }` whose payload decodes to the date d reports that token with `formatPtBR(d)` |
| `LoginHom.NoDotNoExpiry` | scripts/login-token/login-hom.js:70-72 | a token without a dot has no expiry |
| `EnvToken.FirstMatch` | src/controllers/AtualizaTokenOdonto.js:51-52 | finds the first line that starts with `key=` |
| `EnvToken.Upsert` | src/controllers/AtualizaTokenOdonto.js:51-58 | the first `key=` line is replaced by `key=value` and the rest kept; with no such line, a newline and `key=value` are appended |
| `EnvToken.UpsertSetsValue` | src/controllers/AtualizaTokenOdonto.js:51-58 | after the upsert, the key's first line holds the new value |
| `EnvToken.UpsertIdempotent` | src/controllers/AtualizaTokenOdonto.js:51-58 | applying the same upsert twice is applying it once |
| `EnvToken.UpsertKeepsOtherKey` | src/controllers/AtualizaTokenOdonto.js:51-55 | updating one key leaves the value of every other key unchanged, when neither `key=` pattern is a prefix of the other (true of the token and expiry keys) |
| `EnvToken.KeysDistinct` | src/controllers/AtualizaTokenOdonto.js:51-70 | the token key and the expiry key never match each other's lines |
| `EnvToken.LoginUrl` | src/controllers/AtualizaTokenOdonto.js:26 | the login URL starts with the base and ends with the password |
| `EnvToken.Run` | src/controllers/AtualizaTokenOdonto.js:14-45 | a missing base, user or password means no request; a rejected request is reported with its message, exactly when configured and rejected; an answer without a token is reported with the body; the file is written exactly when the answer has a token |
| `EnvToken.RunWrites` | src/controllers/AtualizaTokenOdonto.js:51-70 | the written text holds the new token, and the new expiry only when one came, the old expiry otherwise |
| `TokenService.ExpiryAt` | src/services/TokenService.js:23 | the expiry is a number exactly when `expires_in` reads as a number under `Number`, and then lies that many seconds after `now`; otherwise it is `NaN` |
| `TokenService.ExpiryCoerces` | src/services/TokenService.js:23 | a decimal-string `expires_in` expires like the number it spells, a `null` one expires at `now`, a missing one gives `NaN` |
| `TokenService.Fetch` | src/services/TokenService.js:9-30 | a rejected call or empty body fails with `fetchToken`'s message and keeps the state; otherwise the body's token and coerced expiry are stored and the token returned |
| `TokenService.GetToken` | src/services/TokenService.js:32-43 | a present, unexpired token is returned without a request; when a fetch is due it fails exactly when the login fails, keeping the state and reporting `getToken`'s own message; otherwise it stores the new token and coerced expiry |
| `TokenService.FirstCallFetches` | src/services/TokenService.js:4-7 | a new service fetches on its first call, ending in the state the fetch leaves and succeeding exactly when it does |
| `TokenService.CachedUntilExpiry` | src/services/TokenService.js:34 | for an `expires_in` that reads as a number (a number or a numeric string), the fetched token is reused up to and including the expiry instant, and fetched again strictly after it |
| `TokenService.FailedRefreshKeepsState` | src/services/TokenService.js:39-41 | a failed refresh keeps token and expiry and reports `getToken`'s message |
| `BeneficiarioModel.Case` | src/models/BeneficiarioModel.js:26-41 | a SQL CASE gives the value of the first matching WHEN, or the ELSE when none matches |
| `BeneficiarioModel.TipoUsuario` | src/models/BeneficiarioModel.js:26-41 | the user type is one of 1, 3, 4, 6, 8, 10; it is 1 exactly for 'T'; neither 'T' nor 'D' gives 10 |
| `BeneficiarioModel.TipoUsuarioOfDependent` | src/models/BeneficiarioModel.js:29-39 | for a dependent the type follows the kinship table: F 4, E and J 3, H 6, P and M 8, D and O 10, anything else 10 |
| `BeneficiarioModel.Sexo` | src/models/BeneficiarioModel.js:13 | sex is '1' exactly for 'M', else '0' |
| `BeneficiarioModel.NaturezaContrato` | src/models/BeneficiarioModel.js:14 | the contract nature is always 27552 |
| `BeneficiarioModel.Orgao` | src/models/BeneficiarioModel.js:12 | the issuing body is the stored one, or 'SSP' when null |
| `BeneficiarioModel.PhoneType` | src/models/BeneficiarioModel.js:96-101 | a phone has a type exactly for E, R, C and W (8, 1, 1, 10), never the e-mail type 50 |
| `BeneficiarioModel.ParamsAppend` | src/models/BeneficiarioModel.js:49-63 | the bind count of a WHERE list is the sum over its parts |
| `BeneficiarioModel.BuildQuery` | src/models/BeneficiarioModel.js:5-66 | the titular variant names neither `hsstxusu` nor its filters; the other adds both; both keep the base tables and conditions and bind exactly one parameter, the user id |
| `BeneficiarioModel.QueryVariants` | src/models/BeneficiarioModel.js:43-63 | the dependent query is the titular query plus the one table and the three filters |
| `BeneficiarioModel.GetBeneficiario` | src/models/BeneficiarioModel.js:69-83 | the error flag is set exactly on a failure, with its message; truthy data is the first row |
| `BeneficiarioModel.FoundIffRows` | src/models/BeneficiarioModel.js:74-78 | data is present exactly when the query returned rows |
| `BeneficiarioModel.RowsResponse` | src/models/BeneficiarioModel.js:115-126 | data is an array exactly when rows came back, holding them all in order; otherwise null |
| `BeneficiarioController.SetProp` | src/controllers/BeneficiarioController.js:69 | storing the fee on the responsible party changes that property only |
| `BeneficiarioController.FirstMensalidade` | src/controllers/BeneficiarioController.js:68-69 | the fee lookup throws on a missing answer or data, and otherwise yields the first row's `MENSALIDADE` |
| `BeneficiarioController.IdDepartamento` | src/controllers/BeneficiarioController.js:91-93 | the department is `depID[0]` exactly when `depID` is a non-empty array whose first element is positive, else null |
| `BeneficiarioController.ContactList` | src/controllers/BeneficiarioController.js:95-100 | each contact record becomes `{tipo, dado}`, keeping length and order; a non-array gives no contacts |
| `BeneficiarioController.ContactsOfRows` | src/models/BeneficiarioModel.js:115-126 | the contacts the controller builds are the contact rows the model returned, one for one, and none on a database error |
| `BeneficiarioController.DependenteOf` | src/controllers/BeneficiarioController.js:103-129 | a dependent entry carries the person's CPF, name and type, plan 127, value '659' and the first fee |
| `BeneficiarioController.Dependentes` | src/controllers/BeneficiarioController.js:103-129 | the responsible party comes first; the beneficiary follows exactly for a dependent; all entries have plan 127 and value '659' |
| `BeneficiarioController.AddressOf` | src/controllers/BeneficiarioController.js:161-171 | the address takes CEP and number from the responsible party and the state text from the CEP answer |
| `BeneficiarioController.BuildRequest` | src/controllers/BeneficiarioController.js:130-179 | the request carries the bearer token, the fixed partner, the responsible CPF, the department, the contact list and the dependents |
| `BeneficiarioController.Responsible` | src/controllers/BeneficiarioController.js:60-66 | for a titular the responsible party is the beneficiary; for a dependent it is the fetched titular when found, else still the beneficiary |
| `BeneficiarioController.Proceed` | src/controllers/BeneficiarioController.js:68-182 | after the beneficiary is found: fee, CEP, CEP answer, company and contacts fail in that order with their errors; when all pass, the beneficiary is included exactly when the partner answers `BuildRequest` of their answers, with that request and the reply's data, and a rejection throws its message |
| `BeneficiarioController.IncluirWith` | src/controllers/BeneficiarioController.js:49-188 | the first failing check decides the error, in the source's order: token, beneficiary, monthly fee, CEP lookup, CEP answer without `dados`, company answer missing or with `error`, null contacts; when all pass, the request is `BuildRequest` of their answers, the beneficiary is included exactly when the partner answers it, with that request and the reply's data, and a rejection throws its message; an inclusion carries the bearer token, the responsible CPF first and the beneficiary second exactly for a dependent |
| `BeneficiarioController.AsWrittenTestAlwaysHolds` | src/controllers/BeneficiarioController.js:61 | the strict test `TIPO_USUARIO !== 1` holds for every code the query can return |
| `BeneficiarioController.NumberTestIsTitularTest` | src/models/BeneficiarioModel.js:26-41 | comparing the code as a number tells titulars apart exactly: it is 1 exactly for 'T' |
| `BeneficiarioController.AsWrittenTitularListedTwice` | src/controllers/BeneficiarioController.js:103-129 | as written, a titular gets two dependent entries, itself second, and the same CPF twice when the titular lookup returns it |
| `BeneficiarioController.TitularListedOnce` | src/controllers/BeneficiarioController.js:103-129 | corrected, a titular is its own responsible party and the only entry |
| `BeneficiarioController.DependentFollowsTitular` | src/controllers/BeneficiarioController.js:103-129 | corrected, a dependent follows its responsible party, as the second of two entries |
| `BeneficiarioBatch.LogMessage` | src/controllers/BeneficiarioController.js:208-231 | the logged message is the result message unless it is loosely equal to '', then the fixed success text |
| `BeneficiarioBatch.Caught` | src/controllers/BeneficiarioController.js:233-240 | a thrown inclusion adds one error entry and one error log line with the name or its placeholder |
| `BeneficiarioBatch.CaughtLine` | src/controllers/BeneficiarioController.js:234-238 | the `catch`'s log line: the error message after the fixed prefix, and the name and id when truthy, else their non-empty placeholders |
| `BeneficiarioBatch.StepAsWritten` | src/controllers/BeneficiarioController.js:199-241 | as written, one beneficiary adds one or more entries, keeping earlier ones, and one log line: the line it should get (`LogLineFor`), except after a missing body, when it is the `catch`'s line for reading `resultMessage` |
| `BeneficiarioBatch.Step` | src/controllers/BeneficiarioController.js:199-241 | corrected, one beneficiary adds exactly its entry (`EntryFor`) and its log line (`LogLineFor`) |
| `BeneficiarioBatch.EntryFor` | src/controllers/BeneficiarioController.js:199-241 | a beneficiary succeeds exactly when it is present, has a truthy id and its inclusion did not throw |
| `BeneficiarioBatch.LogLineFor` | src/controllers/BeneficiarioController.js:206-238 | the `catch`'s line with the entry's error when the entry is a failure; otherwise the name, the id and the reply's `resultMessage`, or the success text when that is loosely '' |
| `BeneficiarioBatch.LogLineAsWritten` | src/controllers/BeneficiarioController.js:206-238 | as written, the line is `LogLineFor`'s except after a missing body, when it is the `catch`'s line for the error of reading `resultMessage` |
| `BeneficiarioBatch.Listed` | src/controllers/BeneficiarioController.js:196 | the batch walks the list's data array, or nothing |
| `BeneficiarioBatch.EntriesAsWritten` | src/controllers/BeneficiarioController.js:199-240 | as written, a beneficiary's entries are its own result, followed by a second, error entry exactly when its inclusion answered with a missing body |
| `BeneficiarioBatch.RunAsWrittenEntries` | src/controllers/BeneficiarioController.js:199-241 | the loop as written writes one log line per beneficiary and, in list order, each beneficiary's entries as stated on their own |
| `BeneficiarioBatch.RunAsWrittenLogs` | src/controllers/BeneficiarioController.js:199-241 | the loop as written writes one log line per beneficiary, line i being `LogLineAsWritten` of beneficiary i |
| `BeneficiarioBatch.RunsAgreeWithoutNullReply` | src/controllers/BeneficiarioController.js:199-241 | when no inclusion answers with a missing body, the loop as written and the corrected loop give the same entries and logs |
| `BeneficiarioBatch.IncluirVarios` | src/controllers/BeneficiarioController.js:191-248 | as written: log line i is `LogLineAsWritten` of beneficiary i, which is `LogLineFor` of it unless its reply was a missing body; the entries are each beneficiary's own result in list order, with an extra error after a missing body; without a missing body, exactly one entry per beneficiary |
| `BeneficiarioBatch.RunOnePerBeneficiary` | src/controllers/BeneficiarioController.js:199-241 | the corrected fold yields exactly one entry and one log line per beneficiary: entry i is `EntryFor` and line i `LogLineFor` of beneficiary i |
| `BeneficiarioBatch.AsWrittenNullReplyCountedTwice` | src/controllers/BeneficiarioController.js:207-208 | as written, a null API body yields a success entry and an error entry for the same beneficiary |
| `BeneficiarioBatch.StepAgreesOtherwise` | src/controllers/BeneficiarioController.js:199-240 | for every beneficiary except one whose inclusion answered with a missing body, the corrected step is the written one |

## Left out

- HTTP, Oracle and file I/O. Every answer is an input: an `Http.Outcome`, a database row list or answer, or a partner function. Console logging, `process.exit`, directory creation and `sleep`/delays are left out. The file writes appear only as "what would be written".
- Oracle semantics. The SQL joins, `ROW_NUMBER` de-duplication and filters, and the select list are left out. Of `BeneficiarioModel.js` only the CASE/DECODE/NVL code tables and the table and condition structure of `buildQuery` are modelled.
- Numbers are integers. Fractional values and `Number()` of hexadecimal, exponent or `Infinity` strings give `NaN` in the model.
- `LoginHom.ExpiresIn`: the `Buffer` base64 decoding, the `JSON.parse` of the payload and `new Date(exp * 1000)` with its local-time conversion are one function parameter, `decode`. It answers nothing, an Invalid Date, or a date with non-negative fields. The base64url normalisation, the date layout and the Invalid Date text are modelled; which `exp` values give an Invalid Date, and dates before year 0, are not.
- The clock and the time zone are parameters: `now` for the token cache, a date for `formatPtBR`, an ISO text for the file timestamp.
- `EnvToken.Upsert`: `$` substitution patterns in `String.replace` are not modelled, so a token containing `$` is out of scope. The key is matched as a literal, and keys are assumed to have no regular-expression metacharacters.
- The `.env` read failure (`readFileSync` throwing) and LogService insert failures are left out; the source swallows the latter.
- A database failure is modelled only for the correction loop's UPDATE and the `BeneficiarioModel` queries. Elsewhere the loops receive the rows.
- `CorrigeDepartamentos.RerunUpdatesNothing` assumes every UPDATE succeeds and the stored CNPJs are digit strings. Without these, a failed update legitimately leaves work for the rerun.
- Column and field names are read with the casings the source tries (`ID_ODONTO` / `id_odonto`, `depid` / `depId` / `DepId`). The database driver's own column-name casing is not modelled.
- Partner answers are deterministic functions of the request. Asking twice gets the same answer, which is what the CPF cache relies on.
- The company answer used by `incluirBeneficiario` is an input. The current company service does not return a top-level `depID`, so in practice `idDepartamento` is null.
- The `if (empresaInfo.error)` branch (`BeneficiarioController.js:82-87`) is left out: it can never run, because the check just before it has already thrown on the same condition.
- Contact records are read with lowercase `tipo_contato` / `contato`, while the beneficiary fields are read upper-cased. Which one the driver returns depends on its configuration; the model reads the names as written.
- Writing the fee onto a responsible party that is not an object is dropped in the model. That party is a database row found by then, so the case does not arise from the database.
- The outer `try`/500 answer of `incluirVariosBeneficiarios` (`BeneficiarioController.js:244-247`) is left out. It covers the `req.body` destructuring, an Express concern, and a failing `getBeneficiariosLista`, whose list is an input here. `incluirBeneficiario` has no such answer: its `catch` logs and rethrows (:183-187), which `Threw` models.
- `JsValues.Trunc`: lengths count Unicode scalar values, while JavaScript's `substring` and `length` count UTF-16 code units. A text with characters outside the Basic Multilingual Plane is cut later in the model than in the source, and a surrogate pair the source splits in two cannot be represented. The same holds for the 70-character name cut of `Departamentos.MapRowToBody` and the 4000-character messages of `BeneficiarioDispatch.Record` and `VerificaCpf.Record`.
- `JsValues.TruncIsPrefix`: its length min(len, input length) counts scalar values, not UTF-16 code units, for the reason given for `JsValues.Trunc`.
- `TruncIsPrefix` and `MessageIsPrefix` are stated in scalar values, not UTF-16 code units (see `JsValues.Trunc`).
- `AuditLog.MessageIsPrefix`: the 4000-character cut counts scalar values, not UTF-16 code units, for the reason given for `JsValues.Trunc`.
- `LoginHom.Run`: a truthy token that is not a string fails with the start of Node's `writeFileSync` message; the "Received …" suffix naming the value's type is not modelled. Other file-system failures are left out.
- Routes, the app bootstrap, the knex configuration and the driver test scripts are not part of this model.
- The CEP, company and fee controllers and services are not modelled: their answers are inputs (`src.cep`, `src.empresa`, `src.mensalidade`, read through `CepAnswered`, `CompanyAnswered` and `FirstMensalidade`). What they decide on their own is left out: `consultaEmpresa` inserts the company through `setEmpresa` when the lookup reports an error and answers `{error: false, data}`, and turns a throw into `{error: true, data: message}` (`EmpresaController.js:5-25`); `CepService` and `EmpresaService` throw on an empty CEP or CNPJ.

## Findings

| source | as written | input that shows it | evidently intended | confidence | as-written member | corrected member |
|---|---|---|---|---|---|---|
| src/controllers/VerificaCpfOdonto.js:164 | `httpStatus ? Number(httpStatus) : null`, applied to the 'no-response' marker that a call without a response produces (line 212; same in GeraJsonBeneficiarios_bkp.js:88 with :288 and :626) | a CPF lookup whose request times out, so there is no `error.response` | a numeric status column: null when there was no response | not executed | `AuditLog.StatusColumnAsWritten` | `AuditLog.StatusColumn` |
| scripts/generate-and-send-odontogroup.js:109-113 | `res.status === 401` is checked on the value `axios.post` resolved with, but axios rejects every non-2xx status by default, so a 401 goes to the `catch` | the partner answers a POST with HTTP 401 | log in again once and retry the same body, as the surrounding code does | not executed | `OdontogroupSend.SendAsWritten` | `OdontogroupSend.Send` |
| src/controllers/BeneficiarioController.js:61 | `beneficiario.TIPO_USUARIO !== 1` (also line 117), while the query returns `TIPO_USUARIO` as the string '1' (BeneficiarioModel.js:27), so the strict test always holds | a titular, whose `ctipousua` is 'T' | a titular is its own responsible party and is listed once; only a dependent is added after the titular | not executed | `BeneficiarioController.AsWrittenTitularListedTwice` | `BeneficiarioController.TitularListedOnce` |
| src/controllers/BeneficiarioController.js:207-208 | the success entry is pushed first, and then `resposta.resultMessage` is read, which throws on a null body; the `catch` then adds an error entry for the same beneficiary | the partner answers the inclusion with a `null` body | one entry per beneficiary: success with the fallback message, or an error | not executed | `BeneficiarioBatch.AsWrittenNullReplyCountedTwice` | `BeneficiarioBatch.RunOnePerBeneficiary` |

The proofs for each row:

- Status column: `AuditLog.StatusColumnAsWrittenStoresNaN` shows the `NaN`, and the audit rows (`BeneficiarioDispatch.Record`, `VerificaCpf.Record`) store the column as written; `AuditLog.StatusColumnAgrees` proves the corrected column is a number or null and differs only there.
- 401 retry: `OdontogroupSend.AsWrittenNeverLogsInAgain` and `OdontogroupSend.AsWrittenUnauthorizedIsFailure` show the retry never runs. `OdontogroupSend.SendRetriesOnce` proves the corrected send logs in again once, and `OdontogroupSend.SendAgreesOtherwise` proves it changes nothing else. `OdontogroupSend.Run` takes the version as a parameter; `OdontogroupSend.RunVersions` shows that the run as written logs in exactly once, and that it agrees with the corrected run whenever no POST is refused with 401.
- Titular listed twice: `BeneficiarioController.IncluirAsWritten` uses the strict test, which `BeneficiarioController.AsWrittenTestAlwaysHolds` shows is always true. `BeneficiarioController.Incluir` compares the number, which `BeneficiarioController.NumberTestIsTitularTest` proves is the titular test. `BeneficiarioController.DependentFollowsTitular` covers the dependent case.
- Null reply: `BeneficiarioBatch.RunAsWritten`, which `BeneficiarioBatch.IncluirVarios` uses, adds both entries; `BeneficiarioBatch.RunAsWrittenEntries` states its entries in general. The corrected `BeneficiarioBatch.Run` reads the message with optional chaining, and `BeneficiarioBatch.StepAgreesOtherwise` proves it agrees with the written step on every other reply.
