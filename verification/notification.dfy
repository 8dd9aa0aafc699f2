/** The notification record shared by the bell and the notification history page. */
module NotificationModel {
  import opened JsValues

  /** The four kinds of notification. */
  datatype NotificationType = EmailConfirmation | Info | Warning | Success

  /** One notification; `createdAt` is a timestamp in milliseconds and
      `actionUrl` the optional route it links to. */
  datatype Notification = Notification(
    id: string,
    kind: NotificationType,
    title: string,
    message: string,
    read: bool,
    createdAt: int,
    actionUrl: Option<string>)
}
