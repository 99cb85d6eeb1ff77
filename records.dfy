/** The rows the enrollment screen reads from the data store. */
module Records {
  import opened Wrappers
  import opened CalendarDates

  /** A program row; monetary_cap is free text such as "$1,200.00". */
  datatype Program = Program(
    id: string,
    name: string,
    sponsor: string,
    monetaryCap: string,
    description: string,
    programStatus: string,
    reEnrollmentDate: Option<Date>)

  /** The patient's drug row with the prices copied from the catalog when it was chosen. */
  datatype PatientDrug = PatientDrug(
    drugId: string,
    refillDate: Option<Date>,
    weeklyPrice: real,
    monthlyPrice: real,
    yearlyPrice: real)
}
