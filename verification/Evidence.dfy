/** What ingestion stores and promotion reads. */
module Evidence {
  datatype Resource = Resource(
    id: string, org: string, env: string, algorithm: string, digest: string, payloadRef: string)
}
