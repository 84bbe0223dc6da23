/** The bot's outgoing messages, as abstract tokens. Texts, emoji and
    keyboards are presentation and are not modelled. */
module Outputs {
  import opened Common
  import opened RequestStore

  /** The fields of the completion notice sent to the administrator
      (main.py, `summary`): everything but the photo. */
  datatype Summary = Summary(
    userId: UserId,
    username: Option<string>,
    device: Option<string>,
    memory: Option<string>,
    battery: Option<string>,
    kit: Option<string>,
    defects: Option<string>,
    urgency: Option<string>)

  datatype Output =
    | Prompt(user: UserId, index: nat)          // the question at `index`, to the user
    | PhotoWarning(user: UserId)                // "please send a photo", to the user
    | AdminSummary(summary: Summary)            // a new request, to the administrator
    | AdminPhoto(fileId: string)                // the request's photo, to the administrator
    | Ack(user: UserId)                         // "your request is saved", to the user
    | Denied(user: UserId)                      // "no rights for this command"
    | NoRequests(user: UserId)                  // "no requests yet"
    | ListedWithPhoto(user: UserId, row: Row)   // one listed row, as a photo with caption
    | ListedAsText(user: UserId, row: Row)      // one listed row, as a text message

  /** The summary of a stored request. */
  function SummaryOf(req: Request): Summary
  {
    Summary(req.userId, req.username, req.device, req.memory, req.battery, req.kit, req.defects, req.urgency)
  }
}
