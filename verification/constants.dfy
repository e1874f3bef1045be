/** Exit codes, endpoint fragments and the success status of the application. */
module Constants {

  const ERROR_DATE_ARGUMENTS_ORDER: int := -2
  const ERROR_API_RESPONSE: int := -3

  const API_URI_SCHEME_AUTHORITY: string := "https://api.stackexchange.com"
  const API_URI_ANSWERS_PATH: string := "/2.2/answers"
  const API_URI_ANSWERS_COMMON_QUERY: string := "?order=desc&sort=votes&site=stackoverflow&pagesize=100"
  const API_URI_ANSWERS_SINCE_QUERY: string := "&fromdate="
  const API_URI_ANSWERS_UNTIL_QUERY: string := "&todate="
  const API_URI_COMMENTS_PATH: string := "/comments"

  const API_SUCCESS_CODE_RESPONSE: int := 200
}
