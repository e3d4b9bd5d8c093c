# jcapi in Dafny

A model of the pure core of a Go client for a cloud directory service's
REST API, and of the row generation of its command-result CSV export.

- `jcapi.dfy` (module `JcApi`, from `jcapi.go`): operation codes and their HTTP
  verbs (including the non-standard `LIST`); the JSON fragments built by string
  concatenation without escaping (`"field":[...]`, `"key":"value"`, booleans
  written as the quoted strings `"true"`/`"false"`, and the e-mail filter);
  tag association for a user (`JCUser.AddTags`, a class whose `tags` field is
  appended to in place); and the coercions of decoded JSON values (strict
  string-array extraction, lenient string and `uint16` reads).
- `export_csv.dfy` (module `ExportCsv`, from
  `examples/ExportSystemUsersToCSV/exportSystemUsersToCSV.go`): the fixed header
  and one row `[system, trimmed line, "", request time]` per non-blank line of
  each result's output. `WriteResultsToCSV` runs the source's nested loops
  against a small buffered writer and is proved to produce `CsvRows(results)`,
  flushing after the header and after each result.
- `go_strings.dfy` (module `GoStrings`): `strings.Split` on one character,
  `strings.Join`, `strings.TrimSpace`, with their round trips.
- `sequences.dfy`, `wrappers.dfy`: counting/repetition over sequences, and
  `Option`/`Result`.

Conventions. Strings are sequences of characters that stand for the bytes of
Go strings, so `emailFilter`'s `[]byte` result is modelled as a string. A Go
`nil` slice and an empty slice are both the empty sequence; the `s != nil` test
in `buildJSONStringArray` therefore has no observable effect and both give
`"field":[]`. A decoded JSON value is the datatype `JSONValue`: `JUint16` is a
value whose dynamic Go type is `uint16`, `JNumber` a number of any other
dynamic type whatever its value, so `GetUint16OrNil(JNumber(5.0)) == 0`, as in
the Go type switch. The panic of a failed type assertion in
`extractStringArray` is `Failure(i)`, `i` the first element that is not a string.

The e-mail filter is `{"filter": [{"email" : "<e>"}]}`, with exactly the
spaces of the format string at `jcapi.go:98`.

## Model

| member | source | states |
|---|---|---|
| `JcApi.MapJCOpToHTTP` | jcapi.go:180-197 | the verb is empty exactly for codes outside 1..5, and for a known code it is one of GET, POST, PUT, DELETE, LIST |
| `JcApi.VerbTable` | jcapi.go:19-25 | read, insert, update, delete, list map to GET, POST, PUT, DELETE, LIST; every other code to "" |
| `JcApi.VerbRoundTrip` | jcapi.go:180-197 | `OpOfVerb` recovers every known code from its verb (the mapping is one-to-one) and no unknown code has a verb |
| `JcApi.HelperVerb` | jcapi.go:107-125 | each of post/put/delete/get/list dispatches with a non-empty verb whose code is the helper's own operation |
| `JcApi.BuildJSONStringArray` | jcapi.go:51-70 | the loop with the `afterFirst` flag yields `"field":[` + the quoted elements joined by commas + `]`; an empty slice gives `"field":[]` |
| `JcApi.StringArrayItems` | jcapi.go:51-70 | when no element holds a comma, splitting the array body on commas gives back the quoted elements in order |
| `JcApi.StringArrayCommas` | jcapi.go:51-70 | with `n >= 1` comma-free elements and field name, the fragment holds exactly `n - 1` commas |
| `JcApi.BuildJSONKeyValuePair` | jcapi.go:72-74 | the fragment is 5 characters longer than key and value together and, when neither holds a double quote, reads back as exactly that key and value |
| `JcApi.ParseStringPairSound` | jcapi.go:72-74 | every text read back as a key/value pair is the fragment built from what was read (the reverse direction of the round trip) |
| `JcApi.KeyValuePairNotInjective` | jcapi.go:72-74 | with no escaping, different keys and values can produce the same fragment |
| `JcApi.BuildJSONKeyValueBoolPair` | jcapi.go:76-83 | the boolean is the string pair with value "true"/"false": the value is a quoted string, never a bare JSON literal, and reads back as that string |
| `JcApi.EmailFilter` | jcapi.go:91-99 | the filter is the fixed prefix, the address verbatim, the fixed suffix, and the address is read back from it unchanged |
| `JcApi.EmailOfFilterSound` | jcapi.go:91-99 | every text from which an address is read back is the filter for that address |
| `JcApi.EmailFilterExample` | jcapi.go:98 | the filter for "a@b.com" is `{"filter": [{"email" : "a@b.com"}]}` byte for byte |
| `JcApi.JCUser.AddTags` | jcapi.go:169-178 | the user's tags become the old tags followed by `TagsOf(id, tags)`; the id is unchanged |
| `JcApi.TagsOfMembership` | jcapi.go:170-178 | a tag is added exactly when it is among the tags and its member list holds the user's id |
| `JcApi.TagsOfCount` | jcapi.go:170-178 | a tag is added (entries of that tag) x (occurrences of the id in its members) times: duplicates are not merged |
| `JcApi.TagsOfAppend` | jcapi.go:171-172 | added tags follow tag order: the tags added for a concatenation are those of the first part, then those of the second |
| `JcApi.TagsOfExample` | jcapi.go:170-178 | user U1 with tags T1 = {U1, U2} and T2 = {U3} gets exactly [T1] |
| `JcApi.ExtractStringArray` | jcapi.go:202-210 | succeeds exactly when every element is a string, then with the same length and element-wise the same strings; otherwise fails at the first element that is not a string |
| `JcApi.GetStringOrNil` | jcapi.go:212-221 | the string held by a string value, "" for a value of any other type; never fails |
| `JcApi.GetUint16OrNil` | jcapi.go:223-232 | the number held by a `uint16` value, 0 for any other value including other numbers; never fails |
| `JcApi.StrictAgreesWithLenient` | jcapi.go:202-221 | on an all-string array the strict extraction and the lenient reader give the same strings |
| `JcApi.LenientZeroIsAmbiguous` | jcapi.go:212-232 | a value of the wrong type reads the same as an empty string or a zero |
| `GoStrings.Split` | examples/ExportSystemUsersToCSV/exportSystemUsersToCSV.go:83 | `strings.Split` on one character gives at least one piece and no piece holds the separator |
| `GoStrings.JoinSplit` | examples/ExportSystemUsersToCSV/exportSystemUsersToCSV.go:83 | joining the pieces of a split with the separator gives back the string |
| `GoStrings.SplitJoin` | examples/ExportSystemUsersToCSV/exportSystemUsersToCSV.go:83 | splitting a join of separator-free pieces gives back the pieces |
| `GoStrings.SplitLength` | examples/ExportSystemUsersToCSV/exportSystemUsersToCSV.go:83 | a split has one piece more than the string has separators |
| `GoStrings.SplitAllSpace` | examples/ExportSystemUsersToCSV/exportSystemUsersToCSV.go:83 | a string is all white space exactly when every piece of its split on a white-space separator is |
| `GoStrings.TrimLeftSpec` | examples/ExportSystemUsersToCSV/exportSystemUsersToCSV.go:85 | trimming on the left drops a white-space prefix and stops at the first other character |
| `GoStrings.TrimRightSpec` | examples/ExportSystemUsersToCSV/exportSystemUsersToCSV.go:85 | trimming on the right drops a white-space suffix and stops at the last other character |
| `GoStrings.TrimSpace` | examples/ExportSystemUsersToCSV/exportSystemUsersToCSV.go:85 | the trimmed line is empty or neither starts nor ends with white space |
| `GoStrings.TrimSpaceSlice` | examples/ExportSystemUsersToCSV/exportSystemUsersToCSV.go:85 | the trimmed line is the slice of the line right after its leading white space |
| `GoStrings.TrimSpaceCutsSpace` | examples/ExportSystemUsersToCSV/exportSystemUsersToCSV.go:85 | everything cut off on either side is white space |
| `GoStrings.TrimSpaceEmpty` | examples/ExportSystemUsersToCSV/exportSystemUsersToCSV.go:85-86 | the trimmed line is empty exactly when the line is all white space |
| `GoStrings.TrimSpaceIdempotent` | examples/ExportSystemUsersToCSV/exportSystemUsersToCSV.go:85 | trimming a trimmed line changes nothing |
| `ExportCsv.CsvRows` | examples/ExportSystemUsersToCSV/exportSystemUsersToCSV.go:77 | the first row is exactly the header SYSTEM ID, USERNAME, JUMPCLOUD USERNAME, COMMAND REQUEST TIME, followed by the data rows |
| `ExportCsv.WriteResultsToCSV` | examples/ExportSystemUsersToCSV/exportSystemUsersToCSV.go:74-96 | after the nested loops the destination holds exactly `CsvRows(results)`, nothing stays buffered, and the flushes fell after the header and after each result |
| `ExportCsv.CsvRowsSnoc` | examples/ExportSystemUsersToCSV/exportSystemUsersToCSV.go:82-94 | one more result appends its rows after all earlier rows |
| `ExportCsv.LineRowsShape` | examples/ExportSystemUsersToCSV/exportSystemUsersToCSV.go:84-91 | every row of a result has four fields: its system, a non-empty line without leading or trailing white space, "", its request time |
| `ExportCsv.DataRowsShape` | examples/ExportSystemUsersToCSV/exportSystemUsersToCSV.go:82-94 | every data row is such a row of one of the results |
| `ExportCsv.LineRowsCount` | examples/ExportSystemUsersToCSV/exportSystemUsersToCSV.go:84-91 | a result has one row per output line that is not blank |
| `ExportCsv.DataRowsCount` | examples/ExportSystemUsersToCSV/exportSystemUsersToCSV.go:82-92 | the number of data rows is the total, over all results, of lines that are non-empty after trimming |
| `ExportCsv.DataRowsAppend` | examples/ExportSystemUsersToCSV/exportSystemUsersToCSV.go:82-94 | rows follow result order: all rows of earlier results come before those of later ones |
| `ExportCsv.LineRowsAppend` | examples/ExportSystemUsersToCSV/exportSystemUsersToCSV.go:84-92 | within a result, rows follow line order |
| `ExportCsv.LineRowsEmpty` | examples/ExportSystemUsersToCSV/exportSystemUsersToCSV.go:84-91 | a list of lines gives no rows exactly when every line is all white space |
| `ExportCsv.ResultRowsEmpty` | examples/ExportSystemUsersToCSV/exportSystemUsersToCSV.go:83-86 | a result contributes no rows exactly when its output is empty or all white space |
| `ExportCsv.ExportExample` | examples/ExportSystemUsersToCSV/exportSystemUsersToCSV.go:74-96 | output "line1\n\nline2  \n" gives the header and the rows S1,line1,,time and S1,line2,,time |
| `ExportCsv.ExampleSplit` | examples/ExportSystemUsersToCSV/exportSystemUsersToCSV.go:83 | "line1\n\nline2  \n" splits into "line1", "", "line2  ", "" |
| `ExportCsv.ExampleTrim` | examples/ExportSystemUsersToCSV/exportSystemUsersToCSV.go:85 | "line1" and "" trim to themselves and "line2  " to "line2" |
| `ExportCsv.ExampleLineRows` | examples/ExportSystemUsersToCSV/exportSystemUsersToCSV.go:84-91 | those four lines give two rows, the blank ones none |
| `ExportCsv.CsvWriter.Write` | examples/ExportSystemUsersToCSV/exportSystemUsersToCSV.go:87 | a written record is appended to the writer's buffer |
| `ExportCsv.CsvWriter.Flush` | examples/ExportSystemUsersToCSV/exportSystemUsersToCSV.go:93 | flushing passes the buffer on to the destination and empties it |

## Left out

- `JCAPI.do` and `setHeader` (jcapi.go:101-105, 127-167): building and sending the HTTP request, reading the body and `json.Unmarshal` are network and library calls. The verb helpers are modelled only as the verb they hand to the dispatcher (`HelperVerb`).
- `getTimeString` reads the wall clock; `dbg` is debug output.
- `main` and `getFileWriter` in the export program: flag parsing, `log.Fatalln`, `filepath.Abs`, `os.Stat`/`os.Create` are I/O.
- `newJCAPI` is a plain record constructor (the `JCAPI` datatype); `GetCommandResultsBySavedCommandID`, the full `JCUser`, `JCTag` and `JCCommandResult` types and `encoding/csv` are not part of this model. Only the fields used here are modelled: `JCUser` as `id` and `tags`, `JCTag` as `id` and `systemUsers`, and `JCCommandResult` as `system`, `requestTime` and `output` (the source reads the output through `result.Response.Data.Output`).
- `ExportCsv.WriteResultsToCSV`: the CSV byte encoding (quoting of fields with commas or quotes) and errors from the underlying writer are not modelled; `Write` and `Flush` of `csv.Writer` are a record buffer and its hand-over to the destination, so the method never returns an error.
- `GoStrings.TrimSpace`: white space is the fixed set space, tab, line feed, carriage return, vertical tab and form feed; Go's `strings.TrimSpace` also trims other Unicode white space.
- `JcApi.GetUint16OrNil`: the values `JCAPI.do` decodes hold numbers as a non-`uint16` type, so on such values the function returns 0; the decoder is not part of this model, so this is stated only for `JNumber` values.
- Floating-point numbers are carried as `real` in `JNumber` and never computed with.
