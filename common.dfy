/** Types shared by every part of the model: the unified download states, the
    optional value and the error taxonomy that the Python code raises as exceptions. */
module Common {

  datatype Option<T> = None | Some(value: T)

  /** `DownloadState` of the source, with the two states of the download queue
      (`canceled`, `shutting down`) that no download client ever reports. */
  datatype DownloadState =
    | Queued
    | Downloading
    | Seeding
    | Paused
    | Importing
    | Failed
    | Canceled
    | ShuttingDown

  /** The download source a `DownloadLimitReached` is raised for. */
  datatype DownloadSource = DcppSource | AirDcppSource | MegaSource

  /** The exceptions of the source that the modelled code raises;
      `TransportError` is a `RequestException` the code does not catch, and a
      `ClientNotWorking` raised without a message carries "". */
  datatype Error =
    | ExternalClientNotWorking(reason: string)
    | ClientNotWorking(message: string)
    | CredentialInvalid
    | DownloadLimitReached(source: DownloadSource, externalClientId: Option<int>)
    | KeyError
    | IndexError
    | AttributeError
    | ValueError
    | TransportError
    | RuntimeError
    | UnboundLocalError
    | TypeError
    | GenericException(message: string)
    | ZeroDivisionError
    | RequestError(code: int)
    | DownloadNotFound
    | TaskNotFound
    | TaskNotDeletable
    | InvalidSettingKey(key: string)
    | InvalidSettingValue(key: string)
    | InvalidSettingModification(key: string)
    | FolderNotFound
    | BlocklistEntryNotFound
    | InvalidKeyValue
    | RootFolderNotFound
    | RootFolderInUse
    | IntegrityError
    | LinkBroken(reasonId: int)

  /** Why a link is on the blocklist (`BlocklistReason`, with `BlocklistReasonID` 1 to 4). */
  datatype BlocklistReason = LinkBrokenReason | SourceNotSupported | NoWorkingLinksReason | AddedByUser

  /** The record a client's `get_download` returns for a download it knows. */
  datatype DownloadStatus = DownloadStatus(size: int, progress: real, speed: real, state: DownloadState)

  /** The three-valued result of `get_download`: the record, `None` (the
      client no longer has the download) or `{}` (the download is not, or
      not yet, known to the client). */
  datatype PollResult = Record(status: DownloadStatus) | NoneResult | EmptyResult

  /** A call that returns a value or raises. */
  datatype Result<T> = Ok(value: T) | Err(error: Error)
}
