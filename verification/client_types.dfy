/** The record shapes the client works with (client/src/types/index.ts). */
module ClientTypes {
  import opened Wrappers

  /**
   * The signed-in user as the client holds it; times are milliseconds since the epoch. An
   * absent field (`undefined` or `null`) is `None`.
   */
  datatype User = User(
    id: int,
    username: string,
    email: string,
    role: string,
    department: Option<string>,
    firstName: string,
    lastName: string,
    isActive: Option<bool>,
    lastLogin: Option<int>)

  /** A file record as the client receives it from the listing endpoints. */
  datatype File = File(
    id: int,
    filename: string,
    originalName: string,
    fileType: string,
    fileSize: int,
    filePath: string,
    uploadedBy: Option<int>,
    uploaderName: Option<string>,
    department: Option<string>,
    category: Option<string>,
    description: Option<string>,
    status: Option<string>,
    createdAt: Option<int>,
    isDeleted: Option<bool>)

  /** The three presentation densities of the file list. */
  datatype ViewMode = Cards | Compact | Table
}
