/** A connection to a bucket, as it is stored (internal/model/connection.go). */
module Connections {

  datatype Connection = Connection(
    id: string, name: string, bucket: string, region: string, endpoint: string, accessKey: string,
    secretKey: string, prefix: string, groupPath: string, organization: string)
}
