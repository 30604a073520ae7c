/**
 * The spreadsheet upload form of members/forms_upload.py: `clean_file`
 * accepts a file exactly when its name ends in `.xlsx` (case-sensitive)
 * and hands the file back untouched.
 */
module MemberUploadForm {
  import opened Wrappers
  import opened Text

  /** An uploaded file: its client-side name and its raw bytes. */
  datatype UploadedFile = UploadedFile(name: string, content: seq<bv8>)

  /** The validation error raised for a file that is not an Excel workbook. */
  datatype FileError = NotAnExcelWorkbook

  const ExcelSuffix := ".xlsx"

  /** `MemberUploadForm.clean_file`. */
  function CleanFile(file: UploadedFile): (r: Result<UploadedFile, FileError>)
    ensures r.Success? <==> EndsWith(file.name, ExcelSuffix)
    ensures r.Success? ==> r.value == file
  {
    if EndsWith(file.name, ExcelSuffix) then Success(file) else Failure(NotAnExcelWorkbook)
  }

  /** Any name of the form `<stem>.xlsx` is accepted, whatever the content. */
  lemma XlsxNameAccepted(stem: string, content: seq<bv8>)
    ensures CleanFile(UploadedFile(stem + ExcelSuffix, content)) == Success(UploadedFile(stem + ExcelSuffix, content))
  {
    var name := stem + ExcelSuffix;
    assert name[|name| - |ExcelSuffix|..] == ExcelSuffix;
  }

  /** The suffix test is case-sensitive: `<stem>.XLSX` is refused. */
  lemma UpperCaseSuffixRejected(stem: string, content: seq<bv8>)
    ensures CleanFile(UploadedFile(stem + ".XLSX", content)).Failure?
  {
    var name := stem + ".XLSX";
    assert name[|name| - 1] == 'X';
    assert ExcelSuffix[|ExcelSuffix| - 1] == 'x';
  }

  /** Only the name is examined: two files with the same name get the same verdict. */
  lemma OnlyNameExamined(f: UploadedFile, g: UploadedFile)
    requires f.name == g.name
    ensures CleanFile(f).Success? <==> CleanFile(g).Success?
    ensures CleanFile(f).Success? ==> CleanFile(g).value == g
  {
  }
}
