/** The status codes this core returns, as mbedtls spells them. */
module Errors {

  datatype Status =
    | Ok                          // 0
    | MpiBufferTooSmall           // MBEDTLS_ERR_MPI_BUFFER_TOO_SMALL
    | MpiAllocFailed              // MBEDTLS_ERR_MPI_ALLOC_FAILED
    | EcpBadInputData             // MBEDTLS_ERR_ECP_BAD_INPUT_DATA
    | EcpInvalidKey               // MBEDTLS_ERR_ECP_INVALID_KEY
    | PlatformHwAccelFailed       // MBEDTLS_ERR_PLATFORM_HW_ACCEL_FAILED
    | PlatformFeatureUnsupported  // MBEDTLS_ERR_PLATFORM_FEATURE_UNSUPPORTED
}
