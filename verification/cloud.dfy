/** The media-upload collaborator (Cloudinary): whether it is configured, and
    the upload-or-keep-the-raw-value rule both controllers apply. */
module Cloud {
  import opened Common

  /** The three environment variables that enable uploads. */
  datatype Env = Env(cloudName: Field, apiKey: Field, apiSecret: Field)

  /** Uploads are attempted only when all three variables are set and non-empty. */
  predicate Configured(env: Env)
  {
    Truthy(env.cloudName) && Truthy(env.apiKey) && Truthy(env.apiSecret)
  }

  /** What one upload call yields: a hosted URL, or a thrown error. */
  datatype UploadResult = Uploaded(secureUrl: string) | UploadError

  /** The upload call itself, as a function of the raw payload. */
  type Uploader = string -> UploadResult

  /** The stored reference for a raw payload: the hosted URL when the upload is
      configured and succeeds, the raw payload otherwise. */
  function UploadOrRaw(raw: string, env: Env, upload: Uploader): (url: string)
    ensures Configured(env) && upload(raw).Uploaded? ==> url == upload(raw).secureUrl
    ensures !Configured(env) || upload(raw).UploadError? ==> url == raw
  {
    if Configured(env) then
      match upload(raw)
      case Uploaded(u) => u
      case UploadError => raw
    else raw
  }
}
