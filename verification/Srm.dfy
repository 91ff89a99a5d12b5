/** The status codes of SRM v2.2 (TStatusCode). */
module Srm {
  datatype StatusCode =
    | SUCCESS | FAILURE | AUTHENTICATION_FAILURE | AUTHORIZATION_FAILURE | INVALID_REQUEST | INVALID_PATH
    | FILE_LIFETIME_EXPIRED | SPACE_LIFETIME_EXPIRED | EXCEED_ALLOCATION | NO_USER_SPACE | NO_FREE_SPACE
    | DUPLICATION_ERROR | NON_EMPTY_DIRECTORY | TOO_MANY_RESULTS | INTERNAL_ERROR | FATAL_INTERNAL_ERROR
    | NOT_SUPPORTED | REQUEST_QUEUED | REQUEST_INPROGRESS | REQUEST_SUSPENDED | ABORTED | RELEASED
    | FILE_PINNED | FILE_IN_CACHE | SPACE_AVAILABLE | LOWER_SPACE_GRANTED | DONE | PARTIAL_SUCCESS
    | REQUEST_TIMED_OUT | LAST_COPY | FILE_BUSY | FILE_LOST | FILE_UNAVAILABLE | CUSTOM_STATUS
}
