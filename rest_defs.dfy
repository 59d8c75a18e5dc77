/** The constants of the REST engine's public header and of the engine itself. */
module RestDefs {

  /** Limits on a split URI (rest.h). */
  const REST_MAX_URL_LEVEL := 10
  const REST_MAX_URL_NAME_LEN := 200

  /** Operation codes of the HTTP methods (rest.h). */
  const REST_OP_POST := 1
  const REST_OP_GET := 2
  const REST_OP_PUT := 3
  const REST_OP_PATCH := 4
  const REST_OP_DELETE := 5

  /** The engine's return codes, REST_RET (rest.h). */
  const REST_OK := 0
  const REST_OP_INVALID := -1
  const REST_MALLOC_FAIL := -2
  const REST_URL_NOTDEFINE := -3
  const REST_PARAM_FAIL := -4
  const REST_INIT_EXCEED := -5
  const REST_QUERY_NOT_FOUND := -6

  /** Kinds of accumulated output, REST_DATA_TYPE (rest.h). */
  const REST_DATA_TYPE_NULL := 1
  const REST_DATA_TYPE_JSON := 2
  const REST_DATA_TYPE_FILE := 3
  const REST_DATA_TYPE_NOT_SUPPORT := -1

  /** The two HTTP statuses the engine itself produces (REST_HTTP_STATUS in rest.h). */
  const REST_HTTP_STATUS_OK := 200
  const REST_HTTP_STATUS_NOT_FOUND := 404

  /** Capacity of the module table and the bound on the pattern-list walk (rest_parser.c). */
  const MAX_REST_INFO_CNT := 5
  const MAX_REST_CB_CNT := 100

  /** The five method codes a pattern has a handler slot for. */
  predicate IsOp(op: int)
  {
    REST_OP_POST <= op <= REST_OP_DELETE
  }
}
