/** What email and blob ids name: a message by where it lies, and a part of it by number, -1 for the whole. */
module ObjectIds {
  datatype EmailId = EmailId(mailbox: string, uidvalidity: nat, uid: nat)

  datatype BlobId = BlobId(mailbox: string, uidvalidity: nat, uid: nat, part: int)
}
