/**
 * The notification types of the event enum, and the like event the like
 * service emits for the notification service.
 */
module Events {

  /** `NotificationType`: every kind of notification a user can receive. */
  datatype NotificationType =
    | CommentLike
    | ArticleLike
    | ArticleComment
    | CommentComment
    | Follow
    | Official
    | ArticleFavorite
    | System

  /** The payload of `emitUserLikeNotification`. */
  datatype LikeEvent = LikeEvent(senderId: string, contentId: string, kind: NotificationType, recipientId: string)
}
