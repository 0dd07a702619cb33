/**
  The `toast` helper of `useToast`: it folds a title and an optional
  description into one message and shows it as an error or a success
  notification.
 */
module Toast {
  import opened Common

  datatype Variant = Default | Destructive

  /** The argument object of `toast({ title, description, variant })`. */
  datatype ToastRequest = ToastRequest(title: Option<string>, description: Option<string>, variant: Option<Variant>)

  datatype Kind = ErrorToast | SuccessToast

  /** What reaches the notification library. */
  datatype Notification = Notification(kind: Kind, message: string)

  /** `title ?? ""`, then `description ? title + ": " + description : title`. */
  function Message(request: ToastRequest): (r: string)
    ensures Truthy(request.description) ==>
      r == request.title.GetOr("") + ": " + request.description.value
    ensures !Truthy(request.description) ==> r == request.title.GetOr("")
  {
    var message := request.title.GetOr("");
    if Truthy(request.description) then message + ": " + request.description.value else message
  }

  /** The notification a request produces. */
  function Show(request: ToastRequest): (r: Notification)
    ensures r.kind == ErrorToast <==> request.variant == Some(Destructive)
    ensures r.message == Message(request)
  {
    var kind := if request.variant == Some(Destructive) then ErrorToast else SuccessToast;
    Notification(kind, Message(request))
  }

  /** The title always leads the message, and with a description present the
      message is exactly the title, the separator and the description. */
  lemma MessageStartsWithTitle(request: ToastRequest)
    ensures var title := request.title.GetOr("");
      var m := Message(request);
      && |title| <= |m|
      && m[..|title|] == title
      && (|m| == |title| <==> !Truthy(request.description))
  {
  }
}
